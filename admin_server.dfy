/** The upload side of the admin server: the file-name check, the Monday-to-Sunday week,
    the ordered date-format policy, sheet selection and the row-by-row filter that turns
    one spreadsheet into the display snapshot. */
module AdminServer {
  import opened Text
  import opened Clock
  import opened Cells

  // ---------------------------------------------------------------------------
  // File names

  const ALLOWED_EXTENSIONS: seq<string> := ["xlsx", "xls"]

  /** `allowed_file`: the name has a `.` and what follows the last one is an allowed extension. */
  function AllowedFile(filename: string): bool {
    var dot := LastIndexOf(filename, '.');
    dot != -1 && Lower(filename[dot + 1..]) in ALLOWED_EXTENSIONS
  }

  /** `s[i]` is the last `.` of `s`. */
  predicate IsLastDot(s: string, i: int) {
    0 <= i < |s| && s[i] == '.' && '.' !in s[i + 1..]
  }

  /** A name is accepted exactly when it contains a `.` and the text after its last `.`,
      lower-cased, is `xlsx` or `xls`. */
  lemma AllowedFileSpec(filename: string)
    ensures AllowedFile(filename) <==>
      exists i :: IsLastDot(filename, i)
        && (Lower(filename[i + 1..]) == "xlsx" || Lower(filename[i + 1..]) == "xls")
  {
    var dot := LastIndexOf(filename, '.');
    forall i | IsLastDot(filename, i) ensures i == dot {
      LastDotUnique(filename, i);
    }
    if dot != -1 {
      assert IsLastDot(filename, dot);
      var ext := Lower(filename[dot + 1..]);
      assert ext in ALLOWED_EXTENSIONS <==> ext == "xlsx" || ext == "xls";
    }
  }

  /** A string has at most one last `.`, and `LastIndexOf` finds it. */
  lemma LastDotUnique(s: string, i: int)
    requires IsLastDot(s, i)
    ensures LastIndexOf(s, '.') == i
  {
    var dot := LastIndexOf(s, '.');
    assert s[i] in s;
    forall k | i < k < |s| ensures s[k] != '.' {
      assert s[k] == s[i + 1..][k - i - 1];
    }
    forall k | dot < k < |s| ensures s[k] != '.' {
      assert s[k] == s[dot + 1..][k - dot - 1];
    }
  }

  // ---------------------------------------------------------------------------
  // The week window

  /** `get_current_week_start`: the Monday of the week that contains `now`. */
  function WeekStart(now: Instant): (monday: Date)
    ensures Weekday(monday) == 0
    ensures monday <= DayOf(now) < monday + 7
  {
    WeekdayArithmetic(DayOf(now), 0);
    DayOf(now) - Weekday(DayOf(now))
  }

  /** `get_current_week_end`: the Sunday six days after `WeekStart`. */
  function WeekEnd(now: Instant): (sunday: Date)
    ensures WeekStart(now) <= DayOf(now) <= sunday
    ensures sunday - WeekStart(now) + 1 == 7
    ensures Weekday(sunday) == 6
  {
    WeekdayArithmetic(DayOf(now), 0);
    WeekStart(now) + 6
  }

  // ---------------------------------------------------------------------------
  // Dates

  /** The formats `parse_date` tries on text, in this order. */
  const DATE_FORMATS: seq<string> := ["%Y-%m-%d", "%d/%m/%Y", "%d-%m-%Y", "%Y/%m/%d"]

  /** The result of the first of `formats` that does not raise on `s`; `Raises` when every
      one of them does. A format that yields `NaT` ends the search like one that yields a
      date. */
  function FirstFormat(s: string, formats: seq<string>, lib: Lib): DateParse {
    if formats == [] then Raises
    else if !lib.parseWithFormat(s, formats[0]).Raises? then lib.parseWithFormat(s, formats[0])
    else FirstFormat(s, formats[1..], lib)
  }

  /** The first format that does not raise wins; none is tried after it, and none wins unless
      every earlier one raises. */
  lemma {:induction false} FirstFormatWins(s: string, formats: seq<string>, lib: Lib)
    ensures FirstFormat(s, formats, lib).Raises? <==>
      forall k :: 0 <= k < |formats| ==> lib.parseWithFormat(s, formats[k]).Raises?
    ensures forall k :: (0 <= k < |formats| && !lib.parseWithFormat(s, formats[k]).Raises?
      && (forall j :: 0 <= j < k ==> lib.parseWithFormat(s, formats[j]).Raises?)
      ==> FirstFormat(s, formats, lib) == lib.parseWithFormat(s, formats[k]))
  {
    if formats != [] {
      FirstFormatWins(s, formats[1..], lib);
      assert forall k :: 1 <= k < |formats| ==> formats[k] == formats[1..][k - 1];
    }
  }

  /** What `parse_date` returns: `None`, a date, or `NaT`. */
  datatype ParsedValue = NoDate | Day(day: Date) | NotADate

  /** A conversion's result as `parse_date` hands it on; its `except` turns an exception
      into `None`. */
  function Handed(p: DateParse): ParsedValue {
    match p
    case OnDay(d) => Day(d)
    case NaT => NotADate
    case Raises => NoDate
  }

  /** `parse_date` as a value: a missing value has no date; text goes through the formats in
      order and falls back to the generic parser only when all of them raise; anything else
      goes to the generic parser directly. */
  function ParsedDate(v: Cell, lib: Lib): ParsedValue {
    match v
    case Missing => NoDate
    case Text(s) =>
      if !FirstFormat(s, DATE_FORMATS, lib).Raises? then Handed(FirstFormat(s, DATE_FORMATS, lib))
      else Handed(lib.parseAny(v))
    case _ => Handed(lib.parseAny(v))
  }

  /** `parse_date`. */
  method ParseDate(v: Cell, lib: Lib) returns (r: ParsedValue)
    ensures r == ParsedDate(v, lib)
  {
    if v.Missing? {
      return NoDate;
    }
    if v.Text? {
      var k := 0;
      while k < |DATE_FORMATS|
        invariant 0 <= k <= |DATE_FORMATS|
        invariant FirstFormat(v.text, DATE_FORMATS, lib) == FirstFormat(v.text, DATE_FORMATS[k..], lib)
      {
        var d := lib.parseWithFormat(v.text, DATE_FORMATS[k]);
        if !d.Raises? {
          return Handed(d);
        }
        assert DATE_FORMATS[k..][1..] == DATE_FORMATS[k + 1..];
        k := k + 1;
      }
      assert DATE_FORMATS[k..] == [];
    }
    r := Handed(lib.parseAny(v));
  }

  // ---------------------------------------------------------------------------
  // Sheets

  /** The sheet names `process_excel_to_csv` looks for, in order of preference. */
  const PREFERRED_SHEETS: seq<string> := ["Data", "data", "Seminars", "seminars", "Program", "program"]

  datatype Sheet = Sheet(name: string, table: Table)

  function SheetNames(book: seq<Sheet>): (names: seq<string>)
    ensures |names| == |book|
    ensures forall i :: 0 <= i < |book| ==> names[i] == book[i].name
  {
    if book == [] then [] else [book[0].name] + SheetNames(book[1..])
  }

  /** The first of `prefs` that is among `names`. */
  function FirstPresent(prefs: seq<string>, names: seq<string>): Option<string> {
    if prefs == [] then None
    else if prefs[0] in names then Some(prefs[0])
    else FirstPresent(prefs[1..], names)
  }

  /** The sheet `process_excel_to_csv` reads: the most preferred name present, else the first
      sheet; nothing at all when the workbook has no sheet. */
  function ChosenSheet(names: seq<string>): Option<string> {
    match FirstPresent(PREFERRED_SHEETS, names)
    case Some(n) => Some(n)
    case None => if names == [] then None else Some(names[0])
  }

  lemma {:induction false} FirstPresentSpec(prefs: seq<string>, names: seq<string>)
    ensures FirstPresent(prefs, names).None? <==> forall k :: 0 <= k < |prefs| ==> prefs[k] !in names
    ensures forall k :: (0 <= k < |prefs| && prefs[k] in names && (forall j :: 0 <= j < k ==> prefs[j] !in names)
      ==> FirstPresent(prefs, names) == Some(prefs[k]))
  {
    if prefs != [] {
      FirstPresentSpec(prefs[1..], names);
      assert forall k :: 1 <= k < |prefs| ==> prefs[k] == prefs[1..][k - 1];
    }
  }

  /** Sheet selection: the first preferred name that is present wins; with none present the
      first sheet is used; an empty workbook yields no sheet. */
  lemma ChosenSheetSpec(names: seq<string>)
    ensures ChosenSheet(names).None? <==> names == []
    ensures ChosenSheet(names).Some? ==> ChosenSheet(names).value in names
    ensures forall k :: (0 <= k < |PREFERRED_SHEETS| && PREFERRED_SHEETS[k] in names
      && (forall j :: 0 <= j < k ==> PREFERRED_SHEETS[j] !in names)
      ==> ChosenSheet(names) == Some(PREFERRED_SHEETS[k]))
    ensures names != [] && (forall k :: 0 <= k < |PREFERRED_SHEETS| ==> PREFERRED_SHEETS[k] !in names)
      ==> ChosenSheet(names) == Some(names[0])
  {
    FirstPresentSpec(PREFERRED_SHEETS, names);
    if FirstPresent(PREFERRED_SHEETS, names).Some? {
      FirstPresentIn(PREFERRED_SHEETS, names);
    }
  }

  lemma {:induction false} FirstPresentIn(prefs: seq<string>, names: seq<string>)
    requires FirstPresent(prefs, names).Some?
    ensures FirstPresent(prefs, names).value in names
  {
    if prefs[0] !in names {
      FirstPresentIn(prefs[1..], names);
    }
  }

  /** The sheet-choosing loop of `process_excel_to_csv`. */
  method SelectSheet(names: seq<string>) returns (r: Option<string>)
    ensures r == ChosenSheet(names)
  {
    var k := 0;
    while k < |PREFERRED_SHEETS|
      invariant 0 <= k <= |PREFERRED_SHEETS|
      invariant FirstPresent(PREFERRED_SHEETS, names) == FirstPresent(PREFERRED_SHEETS[k..], names)
    {
      if PREFERRED_SHEETS[k] in names {
        return Some(PREFERRED_SHEETS[k]);
      }
      assert PREFERRED_SHEETS[k..][1..] == PREFERRED_SHEETS[k + 1..];
      k := k + 1;
    }
    assert PREFERRED_SHEETS[k..] == [];
    if names == [] {
      return None;
    }
    return Some(names[0]);
  }

  /** The first sheet called `name`. */
  function SheetNamed(book: seq<Sheet>, name: string): Option<Table> {
    if book == [] then None
    else if book[0].name == name then Some(book[0].table)
    else SheetNamed(book[1..], name)
  }

  lemma {:induction false} SheetNamedFound(book: seq<Sheet>, name: string)
    requires name in SheetNames(book)
    ensures SheetNamed(book, name).Some?
  {
    if book[0].name != name {
      assert SheetNames(book) == [book[0].name] + SheetNames(book[1..]);
      SheetNamedFound(book[1..], name);
    }
  }

  /** The table `process_excel_to_csv` goes on to filter, or nothing for an empty workbook. */
  function SelectedTable(book: seq<Sheet>): Option<Table> {
    match ChosenSheet(SheetNames(book))
    case None => None
    case Some(n) => SheetNamed(book, n)
  }

  lemma SelectedTableSpec(book: seq<Sheet>)
    ensures SelectedTable(book).None? <==> book == []
  {
    var names := SheetNames(book);
    ChosenSheetSpec(names);
    if book != [] {
      SheetNamedFound(book, ChosenSheet(names).value);
    }
  }

  // ---------------------------------------------------------------------------
  // The row filter

  /** `str(row.get('Tag(s)', '') or '')`. */
  function TagText(columns: seq<string>, row: Row, lib: Lib): string {
    var c := Get(columns, row, "Tag(s)", Text(""));
    if Truthy(c) then Str(c, lib) else ""
  }

  /** The tag check: `website` occurs in the lower-cased tag text. */
  predicate TaggedForWebsite(columns: seq<string>, row: Row, lib: Lib) {
    Contains(Lower(TagText(columns, row, lib)), "website")
  }

  /** `str(row.get('Time', ''))`. */
  function TimeText(columns: seq<string>, row: Row, lib: Lib): string {
    Str(Get(columns, row, "Time", Text("")), lib)
  }

  /** The future-only rule drops the row: its time is neither empty nor `nan`, the text
      before the first `-`, stripped, parses as `HH:MM`, and that moment of the row's date
      is before `now`. */
  predicate StartsBeforeNow(columns: seq<string>, row: Row, d: Date, now: Instant, lib: Lib) {
    var tv := TimeText(columns, row, lib);
    tv != "" && Lower(tv) != "nan"
    && match lib.parseClock(Strip(BeforeFirst(tv, '-')))
       case Some(m) => Combine(d, m) < now
       case None => false
  }

  /** The future-only rule decides by the date first: a row dated after today is never dropped
      for its time, and one dated before today is dropped exactly when its time is usable. */
  lemma StartsBeforeNowByDay(columns: seq<string>, row: Row, d: Date, now: Instant, lib: Lib)
    ensures d > DayOf(now) ==> !StartsBeforeNow(columns, row, d, now, lib)
    ensures d < DayOf(now) ==>
      (StartsBeforeNow(columns, row, d, now, lib) <==>
         var tv := TimeText(columns, row, lib);
         tv != "" && Lower(tv) != "nan" && lib.parseClock(Strip(BeforeFirst(tv, '-'))).Some?)
  {
    var tv := TimeText(columns, row, lib);
    match lib.parseClock(Strip(BeforeFirst(tv, '-')))
    case Some(m) =>
      CombineOnDay(d, m);
      DayMonotone(Combine(d, m), now);
      DayMonotone(now, Combine(d, m));
    case None =>
  }

  /** A row survives: tagged for the website, with a parseable date inside
      `[weekStart, weekEnd]` and not dropped by the future-only rule. */
  predicate Admitted(columns: seq<string>, row: Row, weekStart: Date, weekEnd: Date, now: Instant, lib: Lib) {
    && TaggedForWebsite(columns, row, lib)
    && ParsedDate(Get(columns, row, "Date", Missing), lib).Day?
    && var d := ParsedDate(Get(columns, row, "Date", Missing), lib).day;
       weekStart <= d <= weekEnd && !StartsBeforeNow(columns, row, d, now, lib)
  }

  /** The row makes the loop raise: it is tagged for the website and `parse_date` gives `NaT`,
      which is not `None`, and which the week test cannot compare with a date. */
  predicate RaisesOnDate(columns: seq<string>, row: Row, lib: Lib) {
    TaggedForWebsite(columns, row, lib) && ParsedDate(Get(columns, row, "Date", Missing), lib).NotADate?
  }

  /** Some row of the sheet makes the loop raise. */
  predicate SomeRowRaises(columns: seq<string>, rows: seq<Row>, lib: Lib) {
    exists i :: 0 <= i < |rows| && RaisesOnDate(columns, rows[i], lib)
  }

  /** No row of `rows` makes the loop raise, stated row by row from the front. */
  predicate NoRowRaises(columns: seq<string>, rows: seq<Row>, lib: Lib)
    decreases |rows|
  {
    rows == [] || (NoRowRaises(columns, rows[..|rows| - 1], lib) && !RaisesOnDate(columns, rows[|rows| - 1], lib))
  }

  lemma {:induction false} NoRowRaisesSpec(columns: seq<string>, rows: seq<Row>, lib: Lib)
    ensures NoRowRaises(columns, rows, lib) <==> !SomeRowRaises(columns, rows, lib)
    decreases |rows|
  {
    if rows != [] {
      var init := rows[..|rows| - 1];
      NoRowRaisesSpec(columns, init, lib);
      forall i | 0 <= i < |init| ensures rows[i] == init[i] { }
      if SomeRowRaises(columns, init, lib) {
        var i :| 0 <= i < |init| && RaisesOnDate(columns, init[i], lib);
        assert RaisesOnDate(columns, rows[i], lib);
      }
    }
  }

  /** The record a surviving row becomes. */
  function Project(columns: seq<string>, row: Row, d: Date, lib: Lib): Seminar {
    Seminar(
      Get(columns, row, "Title", Text("")),
      Get(columns, row, "Title", Text("")),
      Get(columns, row, "Speaker", Text("")),
      Text(lib.isoformat(d)),
      Text(lib.capitalize(lib.dayName(d))),
      Get(columns, row, "Time", Text("")),
      Get(columns, row, "Location", Text("")))
  }

  /** The records the loop collects from `rows`, in the order they come. */
  function Survivors(columns: seq<string>, rows: seq<Row>, weekStart: Date, weekEnd: Date, now: Instant, lib: Lib): seq<Seminar> {
    if rows == [] then []
    else
      var prev := Survivors(columns, rows[..|rows| - 1], weekStart, weekEnd, now, lib);
      var row := rows[|rows| - 1];
      if Admitted(columns, row, weekStart, weekEnd, now, lib)
      then prev + [Project(columns, row, ParsedDate(Get(columns, row, "Date", Missing), lib).day, lib)]
      else prev
  }

  /** The positions of the surviving rows, in increasing order. */
  function KeptPositions(columns: seq<string>, rows: seq<Row>, weekStart: Date, weekEnd: Date, now: Instant, lib: Lib): seq<nat> {
    if rows == [] then []
    else
      var prev := KeptPositions(columns, rows[..|rows| - 1], weekStart, weekEnd, now, lib);
      if Admitted(columns, rows[|rows| - 1], weekStart, weekEnd, now, lib) then prev + [|rows| - 1] else prev
  }

  /** The kept positions are in range, increasing, and name admitted rows. */
  lemma {:induction false} KeptPositionsSound(columns: seq<string>, rows: seq<Row>, weekStart: Date, weekEnd: Date, now: Instant, lib: Lib)
    ensures forall j :: 0 <= j < |KeptPositions(columns, rows, weekStart, weekEnd, now, lib)| ==>
      (&& KeptPositions(columns, rows, weekStart, weekEnd, now, lib)[j] < |rows|
       && Admitted(columns, rows[KeptPositions(columns, rows, weekStart, weekEnd, now, lib)[j]], weekStart, weekEnd, now, lib))
    ensures forall j, k :: 0 <= j < k < |KeptPositions(columns, rows, weekStart, weekEnd, now, lib)| ==>
      KeptPositions(columns, rows, weekStart, weekEnd, now, lib)[j] < KeptPositions(columns, rows, weekStart, weekEnd, now, lib)[k]
  {
    if rows != [] {
      var init := rows[..|rows| - 1];
      KeptPositionsSound(columns, init, weekStart, weekEnd, now, lib);
      var prevPos := KeptPositions(columns, init, weekStart, weekEnd, now, lib);
      var pos := KeptPositions(columns, rows, weekStart, weekEnd, now, lib);
      forall j | 0 <= j < |pos|
        ensures pos[j] < |rows| && Admitted(columns, rows[pos[j]], weekStart, weekEnd, now, lib)
      {
        if j < |prevPos| {
          assert pos[j] == prevPos[j];
          assert rows[pos[j]] == init[prevPos[j]];
        }
      }
    }
  }

  /** Every admitted row is at a kept position. */
  lemma {:induction false} KeptPositionsComplete(columns: seq<string>, rows: seq<Row>, weekStart: Date, weekEnd: Date, now: Instant, lib: Lib)
    ensures forall i :: 0 <= i < |rows| && Admitted(columns, rows[i], weekStart, weekEnd, now, lib) ==>
      i in KeptPositions(columns, rows, weekStart, weekEnd, now, lib)
  {
    if rows != [] {
      var init := rows[..|rows| - 1];
      KeptPositionsComplete(columns, init, weekStart, weekEnd, now, lib);
      forall i | 0 <= i < |init| ensures rows[i] == init[i] { }
    }
  }

  /** There are as many records as kept positions, and the j-th record is the projection of
      the row at the j-th kept position. */
  lemma {:induction false} SurvivorsAtKept(columns: seq<string>, rows: seq<Row>, weekStart: Date, weekEnd: Date, now: Instant, lib: Lib)
    ensures |Survivors(columns, rows, weekStart, weekEnd, now, lib)| == |KeptPositions(columns, rows, weekStart, weekEnd, now, lib)|
    ensures forall j :: 0 <= j < |KeptPositions(columns, rows, weekStart, weekEnd, now, lib)| ==>
      (&& KeptPositions(columns, rows, weekStart, weekEnd, now, lib)[j] < |rows|
       && ParsedDate(Get(columns, rows[KeptPositions(columns, rows, weekStart, weekEnd, now, lib)[j]], "Date", Missing), lib).Day?
       && Survivors(columns, rows, weekStart, weekEnd, now, lib)[j]
          == Project(columns, rows[KeptPositions(columns, rows, weekStart, weekEnd, now, lib)[j]],
                     ParsedDate(Get(columns, rows[KeptPositions(columns, rows, weekStart, weekEnd, now, lib)[j]], "Date", Missing), lib).day, lib))
  {
    if rows != [] {
      var init := rows[..|rows| - 1];
      SurvivorsAtKept(columns, init, weekStart, weekEnd, now, lib);
      var prevOut := Survivors(columns, init, weekStart, weekEnd, now, lib);
      var prevPos := KeptPositions(columns, init, weekStart, weekEnd, now, lib);
      var out := Survivors(columns, rows, weekStart, weekEnd, now, lib);
      var pos := KeptPositions(columns, rows, weekStart, weekEnd, now, lib);
      forall j | 0 <= j < |pos|
        ensures pos[j] < |rows| && ParsedDate(Get(columns, rows[pos[j]], "Date", Missing), lib).Day?
        ensures out[j] == Project(columns, rows[pos[j]], ParsedDate(Get(columns, rows[pos[j]], "Date", Missing), lib).day, lib)
      {
        if j < |prevPos| {
          assert pos[j] == prevPos[j] && out[j] == prevOut[j];
          assert rows[pos[j]] == init[prevPos[j]];
        }
      }
    }
  }

  /** The output is exactly the admitted rows, projected, in source order: the j-th record comes
      from the row at the j-th kept position, the positions increase, and a row is at a kept
      position exactly when it is admitted. */
  lemma SurvivorsSpec(columns: seq<string>, rows: seq<Row>, weekStart: Date, weekEnd: Date, now: Instant, lib: Lib)
    ensures |Survivors(columns, rows, weekStart, weekEnd, now, lib)| == |KeptPositions(columns, rows, weekStart, weekEnd, now, lib)|
    ensures forall j :: 0 <= j < |KeptPositions(columns, rows, weekStart, weekEnd, now, lib)| ==>
      (&& KeptPositions(columns, rows, weekStart, weekEnd, now, lib)[j] < |rows|
       && Admitted(columns, rows[KeptPositions(columns, rows, weekStart, weekEnd, now, lib)[j]], weekStart, weekEnd, now, lib)
       && Survivors(columns, rows, weekStart, weekEnd, now, lib)[j]
          == Project(columns, rows[KeptPositions(columns, rows, weekStart, weekEnd, now, lib)[j]],
                     ParsedDate(Get(columns, rows[KeptPositions(columns, rows, weekStart, weekEnd, now, lib)[j]], "Date", Missing), lib).day, lib))
    ensures forall j, k :: 0 <= j < k < |KeptPositions(columns, rows, weekStart, weekEnd, now, lib)| ==>
      KeptPositions(columns, rows, weekStart, weekEnd, now, lib)[j] < KeptPositions(columns, rows, weekStart, weekEnd, now, lib)[k]
    ensures forall i :: 0 <= i < |rows| && Admitted(columns, rows[i], weekStart, weekEnd, now, lib) ==>
      i in KeptPositions(columns, rows, weekStart, weekEnd, now, lib)
  {
    KeptPositionsSound(columns, rows, weekStart, weekEnd, now, lib);
    KeptPositionsComplete(columns, rows, weekStart, weekEnd, now, lib);
    SurvivorsAtKept(columns, rows, weekStart, weekEnd, now, lib);
  }

  /** Every record the filter emits comes from a row whose lower-cased tag holds `website`,
      whose date parses, and whose date lies in `[weekStart, weekEnd]`; the record carries the
      source title twice, the ISO form of that date and the raw time. */
  lemma EmittedRows(columns: seq<string>, rows: seq<Row>, weekStart: Date, weekEnd: Date, now: Instant, lib: Lib, j: nat)
    requires j < |Survivors(columns, rows, weekStart, weekEnd, now, lib)|
    ensures var s := Survivors(columns, rows, weekStart, weekEnd, now, lib)[j];
      exists i, d :: 0 <= i < |rows|
        && TaggedForWebsite(columns, rows[i], lib)
        && ParsedDate(Get(columns, rows[i], "Date", Missing), lib) == Day(d)
        && weekStart <= d <= weekEnd
        && s.titleOriginal == s.title == Get(columns, rows[i], "Title", Text(""))
        && s.date == Text(lib.isoformat(d))
        && s.time == Get(columns, rows[i], "Time", Text(""))
  {
    SurvivorsSpec(columns, rows, weekStart, weekEnd, now, lib);
    var pos := KeptPositions(columns, rows, weekStart, weekEnd, now, lib);
    var i := pos[j];
    var d := ParsedDate(Get(columns, rows[i], "Date", Missing), lib).day;
    assert 0 <= i < |rows| && ParsedDate(Get(columns, rows[i], "Date", Missing), lib) == Day(d);
  }

  /** The future-only rule never drops a row over a time it cannot use: a tagged row dated
      inside the week whose time is empty, `nan` or not `HH:MM` before the first `-` is kept. */
  lemma UnusableTimeKept(columns: seq<string>, rows: seq<Row>, weekStart: Date, weekEnd: Date, now: Instant, lib: Lib, i: nat)
    requires i < |rows|
    requires TaggedForWebsite(columns, rows[i], lib)
    requires ParsedDate(Get(columns, rows[i], "Date", Missing), lib).Day?
    requires weekStart <= ParsedDate(Get(columns, rows[i], "Date", Missing), lib).day <= weekEnd
    requires var tv := TimeText(columns, rows[i], lib);
      tv == "" || Lower(tv) == "nan" || lib.parseClock(Strip(BeforeFirst(tv, '-'))).None?
    ensures i in KeptPositions(columns, rows, weekStart, weekEnd, now, lib)
  {
    SurvivorsSpec(columns, rows, weekStart, weekEnd, now, lib);
  }

  // ---------------------------------------------------------------------------
  // The batch

  /** `(success, message, seminars_count)`. */
  datatype Outcome = Outcome(success: bool, message: string, count: nat)

  /** What the `except` of `process_excel_to_csv` puts in front of the exception's text. */
  const ERROR_PREFIX := "Error processing file: "
  const INDEX_ERROR := ERROR_PREFIX + "list index out of range"
  const EMPTY := "Excel file is empty"
  const NO_MATCHES := "No seminars found tagged with 'website' for this week"

  function SuccessMessage(n: nat): string {
    "Successfully processed " + IntToString(n) + " seminars"
  }

  /** One more row either adds its record or leaves the output as it was. */
  lemma SurvivorsStep(columns: seq<string>, rows: seq<Row>, i: nat, weekStart: Date, weekEnd: Date, now: Instant, lib: Lib)
    requires i < |rows|
    ensures Admitted(columns, rows[i], weekStart, weekEnd, now, lib) ==>
      Survivors(columns, rows[..i + 1], weekStart, weekEnd, now, lib)
      == Survivors(columns, rows[..i], weekStart, weekEnd, now, lib)
         + [Project(columns, rows[i], ParsedDate(Get(columns, rows[i], "Date", Missing), lib).day, lib)]
    ensures !Admitted(columns, rows[i], weekStart, weekEnd, now, lib) ==>
      Survivors(columns, rows[..i + 1], weekStart, weekEnd, now, lib) == Survivors(columns, rows[..i], weekStart, weekEnd, now, lib)
    ensures NoRowRaises(columns, rows[..i + 1], lib) <==>
      NoRowRaises(columns, rows[..i], lib) && !RaisesOnDate(columns, rows[i], lib)
  {
    assert rows[..i + 1][..i] == rows[..i];
  }

  /** The four ways one row goes through the loop: skipped for its tag, skipped for having no
      date, raising over a `NaT` date, or judged by its date and time. */
  lemma RowCases(columns: seq<string>, row: Row, weekStart: Date, weekEnd: Date, now: Instant, lib: Lib)
    ensures !TaggedForWebsite(columns, row, lib) ==>
      !Admitted(columns, row, weekStart, weekEnd, now, lib) && !RaisesOnDate(columns, row, lib)
    ensures ParsedDate(Get(columns, row, "Date", Missing), lib).NoDate? ==>
      !Admitted(columns, row, weekStart, weekEnd, now, lib) && !RaisesOnDate(columns, row, lib)
    ensures TaggedForWebsite(columns, row, lib) && ParsedDate(Get(columns, row, "Date", Missing), lib).NotADate? ==>
      RaisesOnDate(columns, row, lib)
    ensures ParsedDate(Get(columns, row, "Date", Missing), lib).Day? ==> !RaisesOnDate(columns, row, lib)
    ensures forall d :: TaggedForWebsite(columns, row, lib) && ParsedDate(Get(columns, row, "Date", Missing), lib) == Day(d) ==>
      (Admitted(columns, row, weekStart, weekEnd, now, lib) <==>
         weekStart <= d <= weekEnd && !StartsBeforeNow(columns, row, d, now, lib))
  {
  }

  /** The loop of `process_excel_to_csv` over the rows of the chosen sheet: the records of
      the surviving rows, or `None` when a row's date is `NaT` and the week test raises. */
  method FilterWeek(columns: seq<string>, rows: seq<Row>, weekStart: Date, weekEnd: Date, now: Instant, lib: Lib)
    returns (filtered: Option<seq<Seminar>>)
    ensures filtered.None? <==> SomeRowRaises(columns, rows, lib)
    ensures filtered.Some? ==> filtered.value == Survivors(columns, rows, weekStart, weekEnd, now, lib)
  {
    var out := [];
    for i := 0 to |rows|
      invariant out == Survivors(columns, rows[..i], weekStart, weekEnd, now, lib)
      invariant NoRowRaises(columns, rows[..i], lib)
    {
      SurvivorsStep(columns, rows, i, weekStart, weekEnd, now, lib);
      RowCases(columns, rows[i], weekStart, weekEnd, now, lib);
      var row := rows[i];
      if !Contains(Lower(TagText(columns, row, lib)), "website") {
        continue;
      }
      var date := ParseDate(Get(columns, row, "Date", Missing), lib);
      if date.NoDate? {
        continue;
      }
      if date.NotADate? {
        assert RaisesOnDate(columns, rows[i], lib);
        return None;
      }
      var d := date.day;
      if !(weekStart <= d <= weekEnd) {
        continue;
      }
      var timeValue := TimeText(columns, row, lib);
      if timeValue != "" && Lower(timeValue) != "nan" {
        var startTime := lib.parseClock(Strip(BeforeFirst(timeValue, '-')));
        if startTime.Some? && Combine(d, startTime.value) < now {
          continue;
        }
      }
      out := out + [Project(columns, row, d, lib)];
    }
    assert rows[..|rows|] == rows;
    NoRowRaisesSpec(columns, rows, lib);
    return Some(out);
  }

  /** `process_excel_to_csv`: choose the sheet, filter its rows for the week of `now`, and
      report. `csv` is what would be written to the snapshot file; `None` means the file is
      left untouched. */
  method ProcessExcelToCsv(book: seq<Sheet>, now: Instant, lib: Lib) returns (outcome: Outcome, csv: Option<seq<Seminar>>)
    ensures csv.Some? <==> outcome.success
    ensures csv.Some? ==> |csv.value| == outcome.count > 0
    ensures !outcome.success ==> outcome.count == 0
    ensures book == [] ==> outcome == Outcome(false, INDEX_ERROR, 0)
    ensures book != [] ==> SelectedTable(book).Some?
    ensures SelectedTable(book).Some? ==>
      var t := SelectedTable(book).value;
      var out := Survivors(t.columns, t.rows, WeekStart(now), WeekEnd(now), now, lib);
      && (IsEmpty(t) ==> outcome == Outcome(false, EMPTY, 0))
      && (!IsEmpty(t) && SomeRowRaises(t.columns, t.rows, lib) ==>
            outcome == Outcome(false, ERROR_PREFIX + lib.natDateError, 0))
      && (!IsEmpty(t) && !SomeRowRaises(t.columns, t.rows, lib) && out == [] ==>
            outcome == Outcome(false, NO_MATCHES, 0))
      && (!IsEmpty(t) && !SomeRowRaises(t.columns, t.rows, lib) && out != [] ==>
            outcome == Outcome(true, SuccessMessage(|out|), |out|) && csv == Some(out))
  {
    SelectedTableSpec(book);
    var names := SheetNames(book);
    var chosen := SelectSheet(names);
    if chosen.None? {
      return Outcome(false, INDEX_ERROR, 0), None;
    }
    var found := SheetNamed(book, chosen.value);
    if found.None? {
      // the chosen name is one of the workbook's own
      return Outcome(false, INDEX_ERROR, 0), None;
    }
    var t := found.value;
    if IsEmpty(t) {
      return Outcome(false, EMPTY, 0), None;
    }
    var filtered := FilterWeek(t.columns, t.rows, WeekStart(now), WeekEnd(now), now, lib);
    if filtered.None? {
      return Outcome(false, ERROR_PREFIX + lib.natDateError, 0), None;
    }
    if filtered.value == [] {
      return Outcome(false, NO_MATCHES, 0), None;
    }
    return Outcome(true, SuccessMessage(|filtered.value|), |filtered.value|), filtered;
  }
}
