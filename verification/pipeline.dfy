/**
 How the stages compose as the command-line entry point runs them: load,
 validate, build the engine, prepare, count. Also the sample frames the
 repository's tests use.
 */
module Pipeline {
  import opened Wrappers
  import opened TimeZones
  import opened Frames
  import opened Seqs
  import opened PyStrings
  import opened GroupBy
  import opened DataLoader
  import opened Analysis

  /** A loaded frame passes validation exactly when some comment text is
      present and some timestamp parsed. */
  lemma ReadThenValidate(db: TimeZoneDb, raw: Table, t: Table)
    requires ReadCommentsCsv(db, raw) == Success(t)
    ensures MissingColumns(t) == {}
    ensures ValidateDataframe(t).0 <==>
      (exists i :: 0 <= i < |raw.rows| && !At(raw.rows[i], CommentTextCol).NA?)
      && (exists i :: 0 <= i < |raw.rows| && CoerceTimestamp(db.parse, At(raw.rows[i], TimestampCol)).Time?)
  {
    assert forall c :: c in RequiredColumns ==> c in t.columns;
    ValidateOkIff(t);
    if exists i :: 0 <= i < |raw.rows| && !At(raw.rows[i], CommentTextCol).NA? {
      var i :| 0 <= i < |raw.rows| && !At(raw.rows[i], CommentTextCol).NA?;
      assert !At(t.rows[i], CommentTextCol).NA?;
    }
    if exists i :: 0 <= i < |raw.rows| && CoerceTimestamp(db.parse, At(raw.rows[i], TimestampCol)).Time? {
      var i :| 0 <= i < |raw.rows| && CoerceTimestamp(db.parse, At(raw.rows[i], TimestampCol)).Time?;
      assert !At(t.rows[i], TimestampCol).NA?;
    }
  }

  /** What a loaded frame's rows say about their timestamps: present exactly
      when the raw text parsed, and then not marked bad. */
  lemma LoadedTimestamps(db: TimeZoneDb, raw: Table, t: Table)
    requires ReadCommentsCsv(db, raw) == Success(t)
    ensures |t.rows| == |raw.rows|
    ensures MissingColumns(t) == {}
    ensures forall i :: 0 <= i < |t.rows| ==> At(t.rows[i], TimestampCol).NA? || At(t.rows[i], TimestampCol).Time?
    ensures forall i :: 0 <= i < |t.rows| ==>
      (HasInstant(db.parse, t.rows[i]) <==> At(t.rows[i], BadTimestampCol) != Flag(true))
    ensures forall i :: 0 <= i < |t.rows| ==>
      (HasInstant(db.parse, t.rows[i]) <==> CoerceTimestamp(db.parse, At(raw.rows[i], TimestampCol)).Time?)
  {
    assert forall c :: c in RequiredColumns ==> c in t.columns;
  }

  /** A loaded frame always builds an engine with the default configuration,
      `prepare` cannot fail on it, and the daily and hourly counts both add
      up to the number of rows not marked as having a bad timestamp. */
  lemma LoadedFrameAnalyses(db: TimeZoneDb, raw: Table, t: Table)
    requires ReadCommentsCsv(db, raw) == Success(t)
    ensures NewEngine(t, None).Success?
    ensures NewEngine(t, None).value.config == DefaultConfig
    ensures Prepare(db, NewEngine(t, None).value).Success?
    ensures var k := ComputeKpis(Prepare(db, NewEngine(t, None).value).value);
      && Total(k.daily) == Total(k.hourly)
      && Total(k.daily) == CountWhere(t.rows, (r: Row) => At(r, BadTimestampCol) != Flag(true))
      && Total(k.daily) == CountWhere(raw.rows, (r: Row) => CoerceTimestamp(db.parse, At(r, TimestampCol)).Time?)
  {
    LoadedTimestamps(db, raw, t);
    var e := NewEngine(t, None).value;
    assert forall i :: 0 <= i < |t.rows| ==> Parseable(db.parse, At(t.rows[i], TimestampCol));
    var p := Prepare(db, e).value;
    KpiConservation(db, e, p);
    CountWhereAgree(t.rows, (r: Row) => HasInstant(db.parse, r), t.rows, (r: Row) => At(r, BadTimestampCol) != Flag(true));
    CountWhereAgree(t.rows, (r: Row) => HasInstant(db.parse, r), raw.rows, (r: Row) => CoerceTimestamp(db.parse, At(r, TimestampCol)).Time?);
  }

  /** The well-formed two-row sample of the tests. */
  const SampleOk: Table := Table(
    [TimestampCol, MediaIdCol, MediaCaptionCol, CommentTextCol],
    [ map[TimestampCol := Text("2025-03-01T12:00:00Z"), MediaIdCol := Text("m1"),
          MediaCaptionCol := Text("Caption 1"), CommentTextCol := Text("Love this scent!")],
      map[TimestampCol := Text("2025-03-02T13:30:00Z"), MediaIdCol := Text("m2"),
          MediaCaptionCol := Text("Caption 2"), CommentTextCol := Text("Where can I buy?")] ])

  /** The sample of the tests that lacks `timestamp` and `media_caption`. */
  const SampleMissing: Table := Table(
    ["time", MediaIdCol, CommentTextCol],
    [ map["time" := Text("2025-03-01T12:00:00Z"), MediaIdCol := Text("m1"), CommentTextCol := Text("ok")] ])

  /** Loading the well-formed sample and validating it gives `(true, [])`,
      provided the timestamp parser reads one of its timestamps. */
  lemma SampleOkValidates(db: TimeZoneDb)
    requires db.parse("2025-03-01T12:00:00Z").Instant?
    ensures ReadCommentsCsv(db, SampleOk).Success?
    ensures ValidateDataframe(ReadCommentsCsv(db, SampleOk).value) == (true, [])
    ensures NewEngine(SampleOk, None).Success?
    ensures |NewEngine(SampleOk, None).value.df.rows| == 2
  {
    assert ColumnSet(SampleOk) == RequiredColumns;
    ReadThenValidate(db, SampleOk, ReadCommentsCsv(db, SampleOk).value);
    assert At(SampleOk.rows[0], CommentTextCol) == Text("Love this scent!");
    assert CoerceTimestamp(db.parse, At(SampleOk.rows[0], TimestampCol)).Time?;
  }

  /** The sample lacks exactly `media_caption` and `timestamp`, which Python
      lists as `['media_caption', 'timestamp']`. */
  lemma SampleMissingColumns()
    ensures MissingColumns(SampleMissing) == {MediaCaptionCol, TimestampCol}
    ensures ListRepr(SortedNames(MissingColumns(SampleMissing))) == "['media_caption', 'timestamp']"
  {
    assert ColumnSet(SampleMissing) == {"time", MediaIdCol, CommentTextCol};
    SortedPair();
  }

  lemma SortedPair()
    ensures SortedNames({MediaCaptionCol, TimestampCol}) == [MediaCaptionCol, TimestampCol]
    ensures ListRepr([MediaCaptionCol, TimestampCol]) == "['media_caption', 'timestamp']"
  {
    CaptionBeforeTimestamp();
    SortedNamesIsSorted({MediaCaptionCol, TimestampCol}, [MediaCaptionCol, TimestampCol]);
    PairRepr();
  }

  lemma CaptionBeforeTimestamp()
    ensures StrictlySorted([MediaCaptionCol, TimestampCol])
  {
    assert StrLess(MediaCaptionCol, TimestampCol);
  }

  lemma PairRepr()
    ensures ListRepr([MediaCaptionCol, TimestampCol]) == "['media_caption', 'timestamp']"
  {
    assert JoinQuoted([TimestampCol]) == "'timestamp'";
  }

  /** The loader refuses the sample, naming both columns. */
  lemma SampleMissingReadFails(db: TimeZoneDb)
    ensures ReadCommentsCsv(db, SampleMissing).Failure?
    ensures ReadCommentsCsv(db, SampleMissing).error == "Missing required columns: ['media_caption', 'timestamp']"
  {
    SampleMissingColumns();
    ReadMessageText();
  }

  lemma ReadMessageText()
    ensures "Missing required columns: " + "['media_caption', 'timestamp']"
      == "Missing required columns: ['media_caption', 'timestamp']"
  {
  }

  /** The validator reports one error naming both columns. */
  lemma SampleMissingValidateFails()
    ensures ValidateDataframe(SampleMissing) == (false, ["Missing columns: ['media_caption', 'timestamp']"])
  {
    SampleMissingColumns();
    ValidateMessageText();
  }

  lemma ValidateMessageText()
    ensures "Missing columns: " + "['media_caption', 'timestamp']" == "Missing columns: ['media_caption', 'timestamp']"
  {
  }

  /** The engine stops at the first absent column in its list, `timestamp`. */
  lemma SampleMissingEngineFails()
    ensures NewEngine(SampleMissing, None) == Failure("Missing required column: timestamp")
  {
    SampleMissingColumns();
    assert RequiredOrder[0] in MissingColumns(SampleMissing);
    assert ValidateInput(SampleMissing).error == MissingColumnMessage + RequiredOrder[0];
    assert MissingColumnMessage + RequiredOrder[0] == "Missing required column: timestamp";
  }

  /** A frame whose only column is `bad` cannot build an engine. */
  lemma UnrelatedFrameRejected(values: seq<Row>)
    ensures NewEngine(Table(["bad"], values), None) == Failure("Missing required column: timestamp")
  {
    var df := Table(["bad"], values);
    assert ColumnSet(df) == {"bad"};
    assert RequiredOrder[0] in MissingColumns(df);
    assert ValidateInput(df).error == MissingColumnMessage + RequiredOrder[0];
    assert MissingColumnMessage + RequiredOrder[0] == "Missing required column: timestamp";
  }
}
