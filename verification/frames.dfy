/**
 The tabular data model: a data frame is a list of column names and a list
 of rows, each row mapping column names to cells. A row that lacks a key
 reads as NA, as a pandas column does where no value was given.
 */
module Frames {
  import opened TimeZones

  /** One cell of a data frame. CSV fields are read as text; parsed
      timestamps become `Time`; the bad-timestamp marker holds `Flag`s. */
  datatype Cell = NA | Text(s: string) | Time(t: Instant) | Flag(b: bool)

  type Row = map<string, Cell>

  datatype Table = Table(columns: seq<string>, rows: seq<Row>)

  const TimestampCol: string := "timestamp"
  const MediaIdCol: string := "media_id"
  const MediaCaptionCol: string := "media_caption"
  const CommentTextCol: string := "comment_text"

  /** The required columns, in the order both the loader and the engine list
      them. */
  const RequiredOrder: seq<string> := [TimestampCol, MediaIdCol, MediaCaptionCol, CommentTextCol]

  /** The required columns as a set. */
  const RequiredColumns: set<string> := {TimestampCol, MediaIdCol, MediaCaptionCol, CommentTextCol}

  /** The cell of row `r` in column `c`. */
  function At(r: Row, c: string): Cell {
    if c in r then r[c] else NA
  }

  /** The set of column names of `t`. */
  function ColumnSet(t: Table): set<string> {
    set c | c in t.columns
  }

  /** The required columns that `t` does not have. */
  function MissingColumns(t: Table): set<string> {
    RequiredColumns - ColumnSet(t)
  }

  /** Every value of column `c` is missing (vacuously true of a frame with no
      rows). */
  predicate AllNA(t: Table, c: string) {
    forall i :: 0 <= i < |t.rows| ==> At(t.rows[i], c).NA?
  }
}
