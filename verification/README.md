# Comment analysis core in Dafny

A model of the two pieces of logic at the centre of the Instagram comment
analysis package:

- **Loading and validation** (`src/account/data_loader.py`). This covers the
  column logic of `read_comments_csv`:
  - the required-column check, with its sorted error message;
  - the projection onto `timestamp, media_id, media_caption, comment_text`;
  - tolerant timestamp parsing;
  - the `_bad_timestamp` marker.

  It also covers `validate_dataframe`: a structural error that short-circuits,
  then two independent all-missing checks.
- **The analysis engine** (`src/account/analysis.py`). This covers:
  - construction, with its column check and default configuration
    (`Europe/London`);
  - `prepare`: UTC normalisation, time zone conversion that falls back to UTC,
    and the local `date` and `hour`;
  - `compute_kpis`: comment counts per local date and per local hour.

A data frame is a `Table`: a list of column names and a list of rows. Each
row maps column names to `Cell`s. A key a row lacks reads as NA. The stages
are pure functions. The engine's in-place updates become values that are
returned and passed to the next stage. A raised exception becomes a
`Failure`.

The model leaves three pieces of library behaviour uninterpreted and passes
them in as a `TimeZones.TimeZoneDb` value:

- reading one timestamp text (`pd.to_datetime`): a UTC instant, null (texts
  pandas reads as NaT, such as `""` or `"NaT"`), or invalid;
- whether the zone database knows a zone name (`tz_convert` raising);
- the local calendar date and hour of an instant in a zone (`.dt.date`,
  `.dt.hour`).

The hour is typed 0..23. A time-zone-aware timestamp is an instant together
with its zone. Converting it keeps the instant and changes the zone. A date is
its proleptic Gregorian ordinal, so dates sort as Python dates do.

Modules:

- `Wrappers`, `Seqs`: option and result types; first-match search and
  counting over sequences.
- `TimeZones`: instants, hours, dates, and the zone database interface.
- `Frames`: cells, rows, tables, and the four required columns.
- `PyStrings`: Python's string order, and the uniqueness of a sorted
  sequence. Together these justify modelling `sorted(list(missing))`. Also the
  `repr` of a list of names.
- `DataLoader`: `read_comments_csv` after the file is read, and
  `validate_dataframe`.
- `GroupBy`: `groupby(key).size()` as an insertion into an ascending count
  table. It is proved equal to a reference count map.
- `Analysis`: the engine.
- `Pipeline`: how the stages compose in `run_analysis.py`, and the sample
  frames of the tests.

Behaviour of the code that the model keeps as written:

- Unparseable timestamps are never dropped. The loader keeps such rows as NaT
  and marks them. `prepare` keeps them with no `ts_local`, `date` or `hour`.
  The group-by then leaves them out, because pandas drops missing group keys.
- An unknown time zone is not an error. `prepare` silently keeps the UTC
  timestamps.
- `prepare` parses with `pd.to_datetime(..., utc=True)` and no
  `errors="coerce"`. Text pandas reads as null becomes NaT, but a frame
  holding timestamp text that cannot be read makes `prepare` raise (`Analysis.Prepare` returns the first such
  row). Frames that come from the loader cannot fail here
  (`Pipeline.LoadedFrameAnalyses`).
- When at least one row has a bad timestamp, the loader assigns the
  `_bad_timestamp` marker only to the bad rows. The other rows' markers are
  therefore NA, not `False`. When no row is bad, every marker is `False`. The
  model states exactly this.
- The `tz` parameter of `read_comments_csv` is never used by the code.

## Model

| member | source | states |
|---|---|---|
| PyStrings.SortedIsUnique | src/account/data_loader.py:49 | two strictly ascending string sequences with the same elements are equal, so the sorted list of a set is determined by the set |
| DataLoader.SortedNames | src/account/data_loader.py:49 | the listed names are strictly ascending in Python's code-point order and are exactly the given set of required names |
| DataLoader.SortedNamesIsSorted | src/account/data_loader.py:80 | any strictly ascending sequence holding exactly the missing names is `SortedNames` of them, i.e. what `sorted(list(missing))` returns |
| DataLoader.CoerceTimestamp | src/account/data_loader.py:55 | coercing parse: the result is an instant or NA; an instant stays; parseable text becomes its instant; NA exactly for missing, non-text or unparseable cells |
| DataLoader.LoadColumns | src/account/data_loader.py:51-63 | columns are exactly the four required ones in fixed order plus `_bad_timestamp`; no row dropped; extra columns gone; other cells copied; timestamps coerced; the marker is `True`, `False` or NA, `True` exactly on bad rows and `False` exactly when no row is bad, hence NA on the good rows when some row is bad |
| DataLoader.ReadCommentsCsv | src/account/data_loader.py:45-65 | fails exactly when a required column is absent, with a message listing the missing names sorted; otherwise returns the loaded frame |
| DataLoader.ValidateDataframe | src/account/data_loader.py:73-93 | `ok` iff no errors; a missing column gives exactly one error naming the missing columns sorted and nothing else; otherwise the comment error appears iff every comment is NA, the timestamp error iff every timestamp is NA, one error per failing check (zero, one or two), comment error first |
| DataLoader.ValidateOkIff | src/account/data_loader.py:77-93 | validation passes iff all required columns are present and neither `comment_text` nor `timestamp` is entirely NA |
| DataLoader.EmptyFrameFailsBoth | src/account/data_loader.py:83-90 | a frame with the required columns and no rows gets both all-missing errors and `ok = false` |
| Analysis.ValidateInput | src/account/analysis.py:27-32 | passes iff no required column is missing; otherwise the error names the first absent column in the order timestamp, media_id, media_caption, comment_text |
| Analysis.NewEngine | src/account/analysis.py:15-25 | construction succeeds iff no required column is missing; the engine holds the same frame (same rows); a given config is kept, none gives time zone Europe/London; failure carries `_validate_input`'s message |
| Analysis.UtcInstant | src/account/analysis.py:37 | the UTC instant a timestamp cell stands for is absent exactly for NA, null or unreadable text and non-timestamp cells; otherwise it is the cell's own instant or the instant the text parses to |
| Analysis.AddColumn | src/account/analysis.py:39-43 | assigning a column keeps every existing column in place and adds the new name once, at the end, only when it is absent |
| Analysis.AddColumnsAppendsNew | src/account/analysis.py:39-43 | assigning distinct columns in turn gives the old column list followed, in order, by exactly the names that were not yet present |
| Analysis.Prepare | src/account/analysis.py:34-44 | fails iff some timestamp cell is unreadable text or not a timestamp, reporting the first such row (null text becomes NaT without failing); otherwise keeps every row, gives the input columns followed by whichever of `ts_local`, `date`, `hour` are new, normalises the timestamp, keeps other cells, sets `ts_local` to the same instant in the configured zone or UTC when the zone is unknown, and derives `date` and `hour` (0..23) from `ts_local` alone, present exactly when the timestamp stands for an instant |
| Analysis.ComputeKpis | src/account/analysis.py:46-54 | two tables `daily` and `hourly` with strictly ascending keys and no zero counts; one entry per distinct occurring date (hour), each holding the number of rows with that date (hour); missing keys are not counted |
| Analysis.KpiConservation | src/account/analysis.py:42-53 | after `prepare`, the daily counts and the hourly counts each add up to the number of input rows whose timestamp stands for an instant, which is at most the number of rows |
| Analysis.DefaultZone | src/account/analysis.py:16-17 | with no configuration and a zone database that knows Europe/London, every local timestamp is in Europe/London |
| Analysis.UtcOverride | tests/test_analysis.py:40-45 | with the time zone overridden to UTC, every local timestamp is in UTC |
| Analysis.UnknownZoneFallsBack | src/account/analysis.py:38-41 | when the zone database rejects the configured zone, `ts_local` equals the UTC timestamp unchanged |
| GroupBy.Bump | src/account/analysis.py:52 | counting one more row with key k keeps the table ascending and positive, adds k to the keys, raises k's count by one and the total by one |
| GroupBy.GroupCount | src/account/analysis.py:52-53 | the count table is strictly ascending with positive counts; its keys are exactly the present keys; each key's count is its number of occurrences; the total is the number of present keys |
| GroupBy.GroupEntries | src/account/analysis.py:52 | every group of the table holds the number of rows with its key |
| GroupBy.GroupCountIsCountMap | src/account/analysis.py:52-53 | the count table read as a map equals the reference map from each occurring key to its count, so it has one entry per distinct key |
| GroupBy.CountOfIsMultiplicity | src/account/analysis.py:52-53 | a key's count is its multiplicity in the key column, and the present keys are all rows but the missing ones |
| Pipeline.ReadThenValidate | src/account/data_loader.py:83-93 | a loaded frame has all required columns and passes validation iff some comment is present and some timestamp parsed |
| Pipeline.LoadedTimestamps | src/account/data_loader.py:55-63 | in a loaded frame a row has a timestamp iff its raw text parsed, iff it is not marked bad |
| Pipeline.LoadedFrameAnalyses | run_analysis.py:22-39 | a loaded frame always builds an engine with the default config, `prepare` cannot fail on it, and daily and hourly totals both equal the rows not marked bad, which are the rows whose timestamp parsed |
| Pipeline.SampleOkValidates | tests/test_data_loader.py:29-37 | loading the well-formed sample and validating it gives `(true, [])`; the engine keeps its two rows |
| Pipeline.SampleMissingReadFails | tests/test_data_loader.py:39-43 | the loader refuses the sample lacking `timestamp` and `media_caption` with "Missing required columns: ['media_caption', 'timestamp']" |
| Pipeline.SampleMissingValidateFails | src/account/data_loader.py:77-81 | the validator reports the single error "Missing columns: ['media_caption', 'timestamp']" for that sample |
| Pipeline.SampleMissingEngineFails | src/account/analysis.py:30-32 | the engine refuses that sample naming the first absent column, `timestamp` |
| Pipeline.UnrelatedFrameRejected | tests/test_analysis.py:35-37 | a frame whose only column is `bad` cannot build an engine |

## Left out

- File access in `read_comments_csv` is not modelled: the existence check, `pd.read_csv` and its "Unable to read CSV" error. The model starts from the frame the reader returns.
- The CSV reader's type inference is not modelled either. Every field is read as text, and empty fields as NA.
- The `isinstance(df, pd.DataFrame)` guards in `validate_dataframe` and `_validate_input` are not modelled. The model's parameters are tables, so their error branches cannot arise.
- Duplicate column names in the input are not modelled. pandas renames them on reading, and the model treats column names as a set.
- Real date-time parsing, the IANA zone database and calendar arithmetic are uninterpreted functions (`TimeZones.TimeZoneDb`). When `tz_convert` raises is modelled only as the zone being unknown.
- Analysis.Prepare: parses each timestamp text on its own. Since pandas 2, `pd.to_datetime` infers one format from the column's first non-null value and applies it to the whole column; that column-wide inference is not modelled.
- DataLoader.CoerceTimestamp: parses each text on its own, so the same column-wide format inference is not modelled here either.
- Calling `compute_kpis` before `prepare` is not modelled. That raises unless the input already has `date` and `hour` columns. `Analysis.ComputeKpis` takes the output of `Analysis.Prepare`.
- pandas' float `hour` column (when NaT rows are present) and dtype details are not modelled. Hours are integers 0..23.
- The early-viral detector (`detect_early_viral_posts`, `save_viral_table`) is not modelled. `run_analysis.py` calls it, but it is not defined in `src/account/analysis.py`, and its robust z-score uses floating point.
- The command-line entry point is not modelled: argument parsing, printing and exit codes.
- Analysis.Prepare: the failure value is the index of the first unparseable row, not pandas' exception text.
