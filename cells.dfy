/** Spreadsheet values as pandas hands them to the pipeline, the display record, and the
    foreign library calls the pipeline makes, passed in as plain functions. */
module Cells {
  import opened Clock

  datatype Option<+T> = None | Some(value: T)

  /** One cell of a data frame. */
  datatype Cell =
    | Missing                // NaN or NaT: `pd.isna` holds
    | Text(text: string)     // a `str`
    | Number(value: real)    // an `int` or `float`
    | Stamp(at: Instant)     // a `Timestamp` / `datetime`
    | Duration(micros: int)  // a `Timedelta`

  /** One row: column name to cell. A column the row has no entry for reads as `Missing`. */
  type Row = map<string, Cell>

  /** A data frame: its column labels, in order, and its rows, in order. */
  datatype Table = Table(columns: seq<string>, rows: seq<Row>)

  /** `df.empty`: no rows or no columns. */
  predicate IsEmpty(t: Table) {
    |t.rows| == 0 || |t.columns| == 0
  }

  /** `row[key]` for a column of the frame. */
  function CellOf(row: Row, key: string): Cell {
    if key in row then row[key] else Missing
  }

  /** `row.get(key, default)` on a row of a frame with the given columns. */
  function Get(columns: seq<string>, row: Row, key: string, default: Cell): (c: Cell)
    ensures key !in columns ==> c == default
  {
    if key in columns then CellOf(row, key) else default
  }

  /** What `pd.to_datetime` made of one element of a column. */
  datatype Conversion = Converted(at: Instant) | NotATime | Unconvertible

  /** What `pd.to_datetime(..).date()` gives: a date, `NaT` (whose `.date()` is `NaT` again),
      or an exception. */
  datatype DateParse = OnDay(day: Date) | NaT | Raises

  /** The foreign calls of the pipeline. None of them is re-implemented; each is an
      arbitrary total function standing for the library routine named beside it. */
  datatype Lib = Lib(
    render: Cell -> string,                           // str(v) of a Number, Stamp or Duration cell
    parseWithFormat: (string, string) -> DateParse,    // pd.to_datetime(s, format=f).date()
    parseAny: Cell -> DateParse,                       // pd.to_datetime(v).date()
    natDateError: string,                              // str(e) of the TypeError comparing a date with NaT
    parseClock: string -> Option<MinuteOfDay>,         // pd.to_datetime(s, format='%H:%M').time(); None if it raises
    toTimestamp: Cell -> Conversion,                   // pd.to_datetime on one element of a column
    isoformat: Date -> string,                         // date.isoformat()
    dayName: Date -> string,                           // strftime('%A %d %b') of any instant on that date
    capitalize: string -> string,                      // str.capitalize()
    unescape: string -> string                         // html.unescape
  )

  /** `str(v)`. */
  function Str(c: Cell, lib: Lib): string {
    match c
    case Missing => "nan"
    case Text(s) => s
    case _ => lib.render(c)
  }

  /** Python truthiness of a cell value (NaN is truthy). */
  predicate Truthy(c: Cell) {
    match c
    case Missing => true
    case Text(s) => s != ""
    case Number(v) => v != 0.0
    case Stamp(_) => true
    case Duration(us) => us != 0
  }

  /** The seven columns of the display snapshot, in order. */
  const SNAPSHOT_COLUMNS: seq<string> :=
    ["Title_Original", "Title", "Speaker", "Date", "Date_Formatted", "Time", "Location"]

  /** One record of the display snapshot. */
  datatype Seminar = Seminar(
    titleOriginal: Cell,
    title: Cell,
    speaker: Cell,
    date: Cell,
    dateFormatted: Cell,
    time: Cell,
    location: Cell)

  /** The record's cells in snapshot column order. */
  function Fields(s: Seminar): (f: seq<Cell>)
    ensures |f| == |SNAPSHOT_COLUMNS|
  {
    [s.titleOriginal, s.title, s.speaker, s.date, s.dateFormatted, s.time, s.location]
  }
}
