/**
 The comment loader: the column logic of reading a comments CSV, and the
 validator that reports what is wrong with a data frame. The file itself
 is not read here: `ReadCommentsCsv` starts from the frame the CSV reader
 produced.
 */
module DataLoader {
  import opened Wrappers
  import opened TimeZones
  import opened Frames
  import opened PyStrings

  /** The marker column the loader adds for rows whose timestamp is bad. */
  const BadTimestampCol: string := "_bad_timestamp"

  /** The columns of a loaded frame, in order. */
  const LoadedColumns: seq<string> := RequiredOrder + [BadTimestampCol]

  /** The required column names in Python's string order. */
  const SortedRequired: seq<string> := [CommentTextCol, MediaCaptionCol, MediaIdCol, TimestampCol]

  const CommentTextAllNA: string := "All comment_text values are NA"
  const TimestampAllNA: string := "All timestamp values failed to parse or are NA"

  lemma SortedRequiredIsSorted()
    ensures StrictlySorted(SortedRequired)
    ensures forall x :: x in SortedRequired <==> x in RequiredColumns
  {
    assert StrLess(CommentTextCol, MediaCaptionCol);
    assert StrLess(MediaCaptionCol[6..], MediaIdCol[6..]);
    assert StrLess(MediaCaptionCol, MediaIdCol);
    assert StrLess(MediaIdCol, TimestampCol);
    assert StrLess(CommentTextCol, MediaIdCol);
    assert StrLess(CommentTextCol, TimestampCol);
    assert StrLess(MediaCaptionCol, TimestampCol);
  }

  /** `sorted(list(names))` for a set of required column names. */
  function SortedNames(names: set<string>): (r: seq<string>)
    requires names <= RequiredColumns
    ensures StrictlySorted(r)
    ensures forall x :: x in r <==> x in names
  {
    SortedRequiredIsSorted();
    KeepIn(SortedRequired, names)
  }

  /** `sorted(list(names))` is the only strictly ascending sequence holding
      exactly `names`. */
  lemma SortedNamesIsSorted(names: set<string>, s: seq<string>)
    requires names <= RequiredColumns
    requires StrictlySorted(s)
    requires forall x :: x in s <==> x in names
    ensures s == SortedNames(names)
  {
    SortedIsUnique(s, SortedNames(names));
  }

  /** Parsing with `errors="coerce", utc=True`: a cell that is not a date-time
      becomes NA instead of raising. */
  function CoerceTimestamp(parse: string -> Parsed, c: Cell): (r: Cell)
    ensures r.NA? || r.Time?
    ensures c.Time? ==> r == c
    ensures c.Text? && parse(c.s).Instant? ==> r == Time(parse(c.s).t)
    ensures r.NA? <==> c.NA? || c.Flag? || (c.Text? && !parse(c.s).Instant?)
  {
    match c
    case Text(s) => (match parse(s) case Instant(t) => Time(t) case _ => NA)
    case Time(_) => c
    case _ => NA
  }

  /** Some row's timestamp fails to parse. */
  predicate AnyBadTimestamp(db: TimeZoneDb, raw: Table) {
    exists i :: 0 <= i < |raw.rows| && CoerceTimestamp(db.parse, At(raw.rows[i], TimestampCol)).NA?
  }

  /** One row of the loaded frame: the four required cells, the timestamp
      parsed, and the bad-timestamp marker. Assigning the marker only to the
      bad rows leaves it NA on the others. */
  function LoadRow(db: TimeZoneDb, r: Row, anyBad: bool): Row {
    var ts := CoerceTimestamp(db.parse, At(r, TimestampCol));
    map[TimestampCol := ts,
        MediaIdCol := At(r, MediaIdCol),
        MediaCaptionCol := At(r, MediaCaptionCol),
        CommentTextCol := At(r, CommentTextCol),
        BadTimestampCol := if !anyBad then Flag(false) else if ts.NA? then Flag(true) else NA]
  }

  /** The frame `read_comments_csv` returns once the columns are known to be
      present: the required columns in their fixed order plus the marker,
      every row kept. */
  function LoadColumns(db: TimeZoneDb, raw: Table): (t: Table)
    ensures t.columns == [TimestampCol, MediaIdCol, MediaCaptionCol, CommentTextCol, BadTimestampCol]
    ensures |t.rows| == |raw.rows|
    ensures forall i :: 0 <= i < |raw.rows| ==>
      var out := t.rows[i];
      var ts := At(out, TimestampCol);
      && out.Keys == {TimestampCol, MediaIdCol, MediaCaptionCol, CommentTextCol, BadTimestampCol}
      && At(out, MediaIdCol) == At(raw.rows[i], MediaIdCol)
      && At(out, MediaCaptionCol) == At(raw.rows[i], MediaCaptionCol)
      && At(out, CommentTextCol) == At(raw.rows[i], CommentTextCol)
      && ts == CoerceTimestamp(db.parse, At(raw.rows[i], TimestampCol))
      && At(out, BadTimestampCol) in {NA, Flag(true), Flag(false)}
      && (At(out, BadTimestampCol) == Flag(true) <==> ts.NA?)
      && (At(out, BadTimestampCol) == Flag(false) <==> forall j :: 0 <= j < |raw.rows| ==> At(t.rows[j], TimestampCol).Time?)
  {
    var anyBad := AnyBadTimestamp(db, raw);
    Table(LoadedColumns, seq(|raw.rows|, i requires 0 <= i < |raw.rows| => LoadRow(db, raw.rows[i], anyBad)))
  }

  /** The column logic of `read_comments_csv` on the frame read from the file. */
  function ReadCommentsCsv(db: TimeZoneDb, raw: Table): (r: Result<Table, string>)
    ensures r.Failure? <==> MissingColumns(raw) != {}
    ensures r.Failure? ==>
      r.error == "Missing required columns: " + ListRepr(SortedNames(MissingColumns(raw)))
    ensures r.Success? ==> r.value == LoadColumns(db, raw)
  {
    var missing := MissingColumns(raw);
    if missing != {} then
      Failure("Missing required columns: " + ListRepr(SortedNames(missing)))
    else
      Success(LoadColumns(db, raw))
  }

  /** `validate_dataframe`: structural errors first, with a short circuit;
      otherwise the two independent all-missing checks. */
  function ValidateDataframe(df: Table): (r: (bool, seq<string>))
    ensures r.0 <==> r.1 == []
    ensures MissingColumns(df) != {} ==>
      r == (false, ["Missing columns: " + ListRepr(SortedNames(MissingColumns(df)))])
    ensures MissingColumns(df) == {} ==>
      && (CommentTextAllNA in r.1 <==> AllNA(df, CommentTextCol))
      && (TimestampAllNA in r.1 <==> AllNA(df, TimestampCol))
      && (forall e :: e in r.1 ==> e in {CommentTextAllNA, TimestampAllNA})
      && |r.1| == (if AllNA(df, CommentTextCol) then 1 else 0) + (if AllNA(df, TimestampCol) then 1 else 0)
      && (|r.1| == 2 ==> r.1[0] == CommentTextAllNA)
  {
    var missing := MissingColumns(df);
    if missing != {} then
      (false, ["Missing columns: " + ListRepr(SortedNames(missing))])
    else
      assert TimestampCol in RequiredColumns && TimestampCol !in missing;
      assert CommentTextAllNA[4] != TimestampAllNA[4];
      var commentErrors := if AllNA(df, CommentTextCol) then [CommentTextAllNA] else [];
      var timestampErrors :=
        if TimestampCol in df.columns && AllNA(df, TimestampCol) then [TimestampAllNA] else [];
      var errors := commentErrors + timestampErrors;
      (|errors| == 0, errors)
  }

  /** The validator passes exactly when all required columns are present and
      neither `comment_text` nor `timestamp` is missing in every row. */
  lemma ValidateOkIff(df: Table)
    ensures ValidateDataframe(df).0 <==>
      MissingColumns(df) == {} && !AllNA(df, CommentTextCol) && !AllNA(df, TimestampCol)
  {
  }

  /** A frame with the required columns but no rows fails both all-missing
      checks, in order. */
  lemma EmptyFrameFailsBoth(df: Table)
    requires MissingColumns(df) == {} && |df.rows| == 0
    ensures ValidateDataframe(df) == (false, [CommentTextAllNA, TimestampAllNA])
  {
    assert TimestampCol in RequiredColumns && TimestampCol !in MissingColumns(df);
    assert TimestampCol in df.columns;
    assert AllNA(df, CommentTextCol) && AllNA(df, TimestampCol);
    assert [CommentTextAllNA] + [TimestampAllNA] == [CommentTextAllNA, TimestampAllNA];
  }
}
