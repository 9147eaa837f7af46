/** Failure-carrying wrappers and the parsed CSV row shared by the scripts. */
module Common {

  /** A value that may be absent (Python's None). */
  datatype Option<+T> = None | Some(value: T)

  /** The outcome of a step that may raise instead of returning. */
  datatype Result<+T, +E> = Success(value: T) | Failure(error: E)

  /** One row of a csv.DictReader: column name to cell text. */
  type Row = map<string, string>

  /** row.get(column, default) */
  function Get(row: Row, column: string, default: string): string
  {
    if column in row then row[column] else default
  }
}
