/**
 The analysis engine: construction with a column check, `prepare` (timestamp
 normalisation, time zone localisation with a pass-through fallback, local
 date and hour), and `compute_kpis` (daily and hourly comment counts).
 The engine's in-place updates are modelled as values returned from each
 stage.
 */
module Analysis {
  import opened Wrappers
  import opened TimeZones
  import opened Frames
  import opened Seqs
  import opened GroupBy

  datatype AnalysisConfig = AnalysisConfig(timezone: string)

  /** The configuration used when the caller gives none. */
  const DefaultConfig: AnalysisConfig := AnalysisConfig("Europe/London")

  /** An engine holds its own copy of the frame and a configuration. */
  datatype Engine = Engine(df: Table, config: AnalysisConfig)

  const TsLocalCol: string := "ts_local"
  const DateCol: string := "date"
  const HourCol: string := "hour"

  /** A prepared row: the input row with its timestamp normalised, plus the
      derived fields. NA in the source is `None` here. */
  datatype Enriched = Enriched(row: Row, tsLocal: Option<LocalTime>, date: Option<Date>, hour: Option<Hour>)

  /** The prepared frame. */
  datatype Prepared = Prepared(columns: seq<string>, rows: seq<Enriched>)

  /** The two count tables `compute_kpis` returns. */
  datatype Kpis = Kpis(daily: seq<Group>, hourly: seq<Group>)

  const MissingColumnMessage: string := "Missing required column: "

  /** `_validate_input`: the required columns are checked in their listed
      order and the first absent one is reported. */
  function ValidateInput(df: Table): (r: Outcome<string>)
    ensures r.Pass? <==> MissingColumns(df) == {}
    ensures r.Fail? ==> exists i :: (
      && 0 <= i < |RequiredOrder|
      && r.error == MissingColumnMessage + RequiredOrder[i]
      && RequiredOrder[i] in MissingColumns(df)
      && forall j :: 0 <= j < i ==> RequiredOrder[j] !in MissingColumns(df))
  {
    assert forall c :: c in RequiredColumns <==> c in RequiredOrder;
    match FirstWhere(RequiredOrder, c => c !in df.columns)
    case None => Pass
    case Some(i) =>
      assert RequiredOrder[i] in MissingColumns(df);
      Fail(MissingColumnMessage + RequiredOrder[i])
  }

  /** `AnalysisEngine(df, config)`: copies the frame, falls back to the
      default configuration, and raises when a required column is absent. */
  function NewEngine(df: Table, config: Option<AnalysisConfig>): (r: Result<Engine, string>)
    ensures r.Success? <==> MissingColumns(df) == {}
    ensures r.Success? ==> r.value.df == df && |r.value.df.rows| == |df.rows|
    ensures r.Success? && config.Some? ==> r.value.config == config.value
    ensures r.Success? && config.None? ==> r.value.config.timezone == "Europe/London"
    ensures r.Failure? ==> ValidateInput(df) == Fail(r.error)
  {
    var e := Engine(df, match config case Some(c) => c case None => DefaultConfig);
    match ValidateInput(e.df)
    case Pass => Success(e)
    case Fail(msg) => Failure(msg)
  }

  /** `pd.to_datetime(..., utc=True)` accepts the cell: missing, already an
      instant, or text the parser reads as an instant or as null. Anything
      else raises. */
  predicate Parseable(parse: string -> Parsed, c: Cell) {
    c.NA? || c.Time? || (c.Text? && !parse(c.s).Invalid?)
  }

  /** The UTC instant a timestamp cell stands for; None for NaT. */
  function UtcInstant(parse: string -> Parsed, c: Cell): (r: Option<Instant>)
    ensures r.None? <==> c.NA? || c.Flag? || (c.Text? && !parse(c.s).Instant?)
    ensures c.Time? ==> r == Some(c.t)
    ensures c.Text? && parse(c.s).Instant? ==> r == Some(parse(c.s).t)
  {
    match c
    case Time(t) => Some(t)
    case Text(s) => (match parse(s) case Instant(t) => Some(t) case _ => None)
    case _ => None
  }

  /** A frame row whose timestamp stands for an instant. */
  predicate HasInstant(parse: string -> Parsed, r: Row) {
    UtcInstant(parse, At(r, TimestampCol)).Some?
  }

  /** The zone the timestamps end up in: the configured one when the zone
      database accepts it, otherwise they stay in UTC. */
  function LocalZone(db: TimeZoneDb, config: AnalysisConfig): string {
    if db.knows(config.timezone) then config.timezone else Utc
  }

  /** The column list after assigning column `c`: an existing column keeps
      its place, a new one is appended. */
  function AddColumn(cols: seq<string>, c: string): (r: seq<string>)
    ensures c in r && cols <= r
    ensures forall x :: x in r <==> x in cols || x == c
    ensures |r| == |cols| + (if c in cols then 0 else 1)
  {
    if c in cols then cols else cols + [c]
  }

  /** The column list after assigning each of `names` in turn. */
  function AddColumns(cols: seq<string>, names: seq<string>): seq<string>
    decreases |names|
  {
    if |names| == 0 then cols else AddColumns(AddColumn(cols, names[0]), names[1..])
  }

  /** The names of `names` not among `cols`, in order. */
  function {:induction false} NewNames(names: seq<string>, cols: seq<string>): (r: seq<string>)
    ensures forall x :: x in r <==> x in names && x !in cols
    decreases |names|
  {
    if |names| == 0 then []
    else
      assert names == [names[0]] + names[1..];
      (if names[0] in cols then [] else [names[0]]) + NewNames(names[1..], cols)
  }

  predicate Distinct(names: seq<string>) {
    forall i, j :: 0 <= i < j < |names| ==> names[i] != names[j]
  }

  lemma {:induction false} NewNamesIgnores(names: seq<string>, cols: seq<string>, n: string)
    requires n !in names
    ensures NewNames(names, cols + [n]) == NewNames(names, cols)
    decreases |names|
  {
    if |names| > 0 {
      NewNamesIgnores(names[1..], cols, n);
    }
  }

  /** Assigning distinct new columns one after another keeps the existing
      columns in place and appends, in order, exactly those not already
      present. */
  lemma {:induction false} AddColumnsAppendsNew(cols: seq<string>, names: seq<string>)
    requires Distinct(names)
    ensures AddColumns(cols, names) == cols + NewNames(names, cols)
    decreases |names|
  {
    if |names| > 0 {
      var rest := names[1..];
      assert Distinct(rest) by {
        forall i, j | 0 <= i < j < |rest| ensures rest[i] != rest[j] {
          assert rest[i] == names[i + 1] && rest[j] == names[j + 1];
        }
      }
      assert names[0] !in rest by {
        forall i | 0 <= i < |rest| ensures rest[i] != names[0] {
          assert rest[i] == names[i + 1];
        }
      }
      AddColumnsAppendsNew(AddColumn(cols, names[0]), rest);
      if names[0] !in cols {
        NewNamesIgnores(rest, cols, names[0]);
      }
    }
  }

  /** The columns `prepare` assigns, in order. */
  const DerivedColumns: seq<string> := [TsLocalCol, DateCol, HourCol]

  lemma DerivedColumnsDistinct()
    ensures Distinct(DerivedColumns)
  {
    assert |TsLocalCol| != |DateCol| && |TsLocalCol| != |HourCol| && DateCol[0] != HourCol[0];
  }

  /** One row of `prepare`. */
  function Enrich(db: TimeZoneDb, zone: string, r: Row): (p: Enriched)
    requires Parseable(db.parse, At(r, TimestampCol))
    ensures At(p.row, TimestampCol) == (match UtcInstant(db.parse, At(r, TimestampCol))
                                       case Some(t) => Time(t) case None => NA)
    ensures forall c :: c != TimestampCol && c !in {TsLocalCol, DateCol, HourCol} ==> At(p.row, c) == At(r, c)
    ensures p.tsLocal.Some? <==> HasInstant(db.parse, r)
    ensures p.tsLocal.Some? ==> Some(p.tsLocal.value.instant) == UtcInstant(db.parse, At(r, TimestampCol))
    ensures p.tsLocal.Some? ==> p.tsLocal.value.zone == zone
    ensures (p.date.Some? <==> p.tsLocal.Some?) && (p.hour.Some? <==> p.tsLocal.Some?)
    ensures p.tsLocal.Some? ==> p.date.value == db.civil(p.tsLocal.value.instant, p.tsLocal.value.zone).date
    ensures p.tsLocal.Some? ==> p.hour.value == db.civil(p.tsLocal.value.instant, p.tsLocal.value.zone).hour
  {
    var t := UtcInstant(db.parse, At(r, TimestampCol));
    var row := (r - {TsLocalCol, DateCol, HourCol})[TimestampCol := if t.Some? then Time(t.value) else NA];
    match t
    case None => Enriched(row, None, None, None)
    case Some(x) =>
      var civil := db.civil(x, zone);
      Enriched(row, Some(LocalTime(x, zone)), Some(civil.date), Some(civil.hour))
  }

  /** `prepare`: fails with the index of the first row whose timestamp does
      not parse; otherwise enriches every row. */
  function Prepare(db: TimeZoneDb, e: Engine): (r: Result<Prepared, nat>)
    ensures r.Failure? <==> exists i :: 0 <= i < |e.df.rows| && !Parseable(db.parse, At(e.df.rows[i], TimestampCol))
    ensures r.Failure? ==> r.error < |e.df.rows| && !Parseable(db.parse, At(e.df.rows[r.error], TimestampCol))
    ensures r.Failure? ==> forall j :: 0 <= j < r.error ==> Parseable(db.parse, At(e.df.rows[j], TimestampCol))
    ensures r.Success? ==>
      && |r.value.rows| == |e.df.rows|
      && r.value.columns == e.df.columns + NewNames(DerivedColumns, e.df.columns)
      && (forall c :: c in r.value.columns <==> c in e.df.columns || c in {TsLocalCol, DateCol, HourCol})
    ensures r.Success? ==> forall i :: 0 <= i < |e.df.rows| ==>
      var orig := e.df.rows[i];
      var p := r.value.rows[i];
      && Parseable(db.parse, At(orig, TimestampCol))
      // the timestamp column now holds the UTC instant or NaT
      && At(p.row, TimestampCol) == (match UtcInstant(db.parse, At(orig, TimestampCol))
                                     case Some(t) => Time(t) case None => NA)
      // every other input column is kept, except the derived ones, which are replaced
      && (forall c :: c != TimestampCol && c !in {TsLocalCol, DateCol, HourCol} ==> At(p.row, c) == At(orig, c))
      // ts_local is the same instant, in the configured zone or, failing that, in UTC
      && (p.tsLocal.Some? <==> HasInstant(db.parse, orig))
      && (p.tsLocal.Some? ==> Some(p.tsLocal.value.instant) == UtcInstant(db.parse, At(orig, TimestampCol)))
      // text pandas reads as null becomes NaT rather than raising
      && (At(orig, TimestampCol).Text? && db.parse(At(orig, TimestampCol).s).NullText? ==>
            p.tsLocal.None? && At(p.row, TimestampCol) == NA)
      && (p.tsLocal.Some? ==> p.tsLocal.value.zone == LocalZone(db, e.config))
      // date and hour come from ts_local alone
      && (p.date.Some? <==> p.tsLocal.Some?) && (p.hour.Some? <==> p.tsLocal.Some?)
      && (p.tsLocal.Some? ==> p.date.value == db.civil(p.tsLocal.value.instant, p.tsLocal.value.zone).date)
      && (p.tsLocal.Some? ==> p.hour.value == db.civil(p.tsLocal.value.instant, p.tsLocal.value.zone).hour)
      && (p.hour.Some? ==> 0 <= p.hour.value < 24)
  {
    match FirstWhere(e.df.rows, (row: Row) => !Parseable(db.parse, At(row, TimestampCol)))
    case Some(i) => Failure(i)
    case None =>
      var zone := LocalZone(db, e.config);
      var cols := AddColumns(e.df.columns, DerivedColumns);
      DerivedColumnsDistinct();
      AddColumnsAppendsNew(e.df.columns, DerivedColumns);
      Success(Prepared(cols, seq(|e.df.rows|, i requires 0 <= i < |e.df.rows| => Enrich(db, zone, e.df.rows[i]))))
  }

  /** The `date` column as group keys. */
  function DateKeys(rows: seq<Enriched>): (keys: seq<Option<int>>) {
    if |rows| == 0 then [] else [rows[0].date] + DateKeys(rows[1..])
  }

  /** The `hour` column as group keys. */
  function HourKeys(rows: seq<Enriched>): (keys: seq<Option<int>>) {
    if |rows| == 0 then []
    else [if rows[0].hour.Some? then Some(rows[0].hour.value as int) else None] + HourKeys(rows[1..])
  }

  /** `compute_kpis`: comments per local date and per local hour. */
  function ComputeKpis(p: Prepared): (k: Kpis)
    ensures Ascending(k.daily) && Positive(k.daily)
    ensures Ascending(k.hourly) && Positive(k.hourly)
    ensures forall i, j :: 0 <= i < j < |k.daily| ==> k.daily[i].key < k.daily[j].key
    ensures forall i, j :: 0 <= i < j < |k.hourly| ==> k.hourly[i].key < k.hourly[j].key
    ensures forall d :: Lookup(k.daily, d) == multiset(DateKeys(p.rows))[Some(d)]
    ensures forall h :: Lookup(k.hourly, h) == multiset(HourKeys(p.rows))[Some(h)]
    ensures forall d :: d in Keys(k.daily) <==> Some(d) in DateKeys(p.rows)
    ensures forall h :: h in Keys(k.hourly) <==> Some(h) in HourKeys(p.rows)
    ensures |k.daily| == |KeySet(DateKeys(p.rows))| && |k.hourly| == |KeySet(HourKeys(p.rows))|
    ensures forall i :: 0 <= i < |k.daily| ==> k.daily[i].comments == multiset(DateKeys(p.rows))[Some(k.daily[i].key)]
    ensures forall i :: 0 <= i < |k.hourly| ==> k.hourly[i].comments == multiset(HourKeys(p.rows))[Some(k.hourly[i].key)]
  {
    var daily := GroupCount(DateKeys(p.rows));
    var hourly := GroupCount(HourKeys(p.rows));
    CountOfIsMultiplicity(DateKeys(p.rows));
    CountOfIsMultiplicity(HourKeys(p.rows));
    AscendingIndexed(daily);
    AscendingIndexed(hourly);
    GroupEntries(DateKeys(p.rows));
    GroupEntries(HourKeys(p.rows));
    GroupCountIsCountMap(DateKeys(p.rows));
    GroupCountIsCountMap(HourKeys(p.rows));
    Kpis(daily, hourly)
  }

  /** A prepared row with a timestamp. */
  predicate Timed(r: Enriched) {
    r.tsLocal.Some?
  }

  /** The derived fields are present together, as `prepare` leaves them. */
  predicate Consistent(rows: seq<Enriched>) {
    forall i :: 0 <= i < |rows| ==>
      (rows[i].date.Some? <==> Timed(rows[i])) && (rows[i].hour.Some? <==> Timed(rows[i]))
  }

  lemma {:induction false} PresentKeysAreTimed(rows: seq<Enriched>)
    requires Consistent(rows)
    ensures Present(DateKeys(rows)) == CountWhere(rows, Timed)
    ensures Present(HourKeys(rows)) == CountWhere(rows, Timed)
    decreases |rows|
  {
    if |rows| > 0 {
      assert forall i :: 1 <= i < |rows| ==> rows[1..][i - 1] == rows[i];
      PresentKeysAreTimed(rows[1..]);
    }
  }

  /** Conservation: the daily counts and the hourly counts both add up to
      the number of rows with a timestamp; rows without one are in neither. */
  lemma KpiConservation(db: TimeZoneDb, e: Engine, p: Prepared)
    requires Prepare(db, e) == Success(p)
    ensures Total(ComputeKpis(p).daily) == CountWhere(e.df.rows, (r: Row) => HasInstant(db.parse, r))
    ensures Total(ComputeKpis(p).hourly) == CountWhere(e.df.rows, (r: Row) => HasInstant(db.parse, r))
    ensures Total(ComputeKpis(p).daily) <= |e.df.rows|
  {
    PresentKeysAreTimed(p.rows);
    CountWhereAgree(p.rows, Timed, e.df.rows, (r: Row) => HasInstant(db.parse, r));
    CountWhereBound(e.df.rows, (r: Row) => HasInstant(db.parse, r));
  }

  /** Without a configuration the engine localises to Europe/London whenever
      the zone database knows that zone. */
  lemma DefaultZone(db: TimeZoneDb, df: Table, p: Prepared)
    requires NewEngine(df, None).Success?
    requires db.knows("Europe/London")
    requires Prepare(db, NewEngine(df, None).value) == Success(p)
    ensures forall i :: 0 <= i < |p.rows| && Timed(p.rows[i]) ==> p.rows[i].tsLocal.value.zone == "Europe/London"
  {
  }

  /** With the time zone overridden to UTC, every local timestamp is in UTC,
      whether the zone database accepts the name or the fallback applies. */
  lemma UtcOverride(db: TimeZoneDb, df: Table, p: Prepared)
    requires NewEngine(df, Some(AnalysisConfig(Utc))).Success?
    requires Prepare(db, NewEngine(df, Some(AnalysisConfig(Utc))).value) == Success(p)
    ensures forall i :: 0 <= i < |p.rows| && Timed(p.rows[i]) ==> p.rows[i].tsLocal.value.zone == Utc
  {
  }

  /** When the zone is not known, `ts_local` is the UTC timestamp unchanged. */
  lemma UnknownZoneFallsBack(db: TimeZoneDb, e: Engine, p: Prepared)
    requires !db.knows(e.config.timezone)
    requires Prepare(db, e) == Success(p)
    ensures forall i :: 0 <= i < |p.rows| && Timed(p.rows[i]) ==>
      p.rows[i].tsLocal.value == LocalTime(At(p.rows[i].row, TimestampCol).t, Utc)
  {
  }
}
