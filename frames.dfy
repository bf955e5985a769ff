/** The values `data_validation` reads, returns and raises. */
module Frames {
  import opened Wrappers

  /** A parsed `Date` value: wall-clock seconds since 1970-01-01T00:00. */
  type Timestamp = int

  /** A calendar date: days since 1970-01-01. */
  type Day = int

  /** One data column: its header and whether pandas' `is_numeric_dtype` holds of it. */
  datatype Column = Column(name: string, numeric: bool)

  /** The table `pd.read_csv(..., parse_dates=["Date"], index_col="Date")` yields:
      the `Date` index (`None` is NaT) and the remaining columns as they were found. */
  datatype RawTable = RawTable(index: seq<Option<Timestamp>>, columns: seq<Column>)

  /** The validated table: a date index and the reordered, renamed columns. */
  datatype Frame = Frame(index: seq<Day>, columns: seq<Column>)

  /** The non-fatal `UserWarning` about extra columns. */
  datatype Warning = ExtraColumnsRetained(extras: seq<string>)

  datatype Validated = Validated(frame: Frame, warnings: seq<Warning>)

  /** The exceptions `data_validation` raises, with their diagnostic payloads. */
  datatype Error =
    | DataDirNotFound(dir: string)
    | EmptyName
    | FileNotFound(path: string)
    | UnparseableDates(count: nat)
    | DuplicateDates(example: Day)
    | NotAscending(prev: Day, next: Day)
    | MissingColumns(missing: seq<string>, found: seq<string>)
    | NonNumericPrice(columns: seq<string>)
    | NonNumericVolume
}
