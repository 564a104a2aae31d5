# Incremental 5-minute series collector, modelled in Dafny

`stock_collector.py` keeps one CSV file per ticker holding 5-minute bars shown in
Asia/Kolkata time. Each run does three things for every ticker in `TICKERS`:

- it reads only the last line of the ticker's file, found by a backward byte
  scan, to learn the resume point;
- it asks the provider either for its whole 60-day window or for everything from
  the resume point's local date on;
- it normalises the provider's index to Asia/Kolkata, then either appends the
  rows strictly after the resume point or, when there is no resume point,
  rewrites the file with a header and the whole batch.

The model is split into these modules:

- `CsvBytes` (`csv_bytes.dfy`): bytes, `str.strip()`, `str.lower()`,
  `split(',')[0]` and the field joining `to_csv` does.
- `Timestamps` (`timestamps.dfy`): naive and aware stamps in seconds,
  `tz_localize`, `tz_convert`/`astimezone` and `.date()`. Asia/Kolkata is the
  fixed offset +05:30. `Codec` is the pair of functions that render an instant
  as the first CSV field and parse such a field. `ValidCodec` is what the model
  assumes of pandas: a rendering starts with a digit, holds no comma or newline,
  and parses back to the same instant at +05:30.
- `LastLine` (`last_line.dfy`): `get_last_datetime`. It is an imperative method
  with the scan loop, proved equal to the function `ResumePoint`.
- `SeriesFile` (`series_file.dfy`): the bytes of a header line and of row
  lines, and the round trip "write rows, then read the resume point back".
- `Collector` (`collector.dfy`): request selection, index normalisation, the
  strictly-after filter and the append-or-rewrite decision, as functions over a
  map from ticker to file bytes.
- `DataDirectory` (`data_dir.dfy`): the class `DataDir`, whose `files` field is
  the data directory. `FetchAndSave` follows `fetch_and_save_data` step by step
  and `Run` follows `main`. Both are proved equal to the `Collector` functions.
- `CollectorProperties` (`properties.dfy`): the properties across calls:
  - the request reaches back far enough;
  - the filter keeps order and takes the suffix of an ascending batch;
  - write-then-resume;
  - idempotence of a re-run;
  - the ascending-series invariant;
  - the two-run scenario;
  - per-ticker isolation in `main`.

The provider (`yf.download`) is a parameter `provider: (string, Request) -> Download`,
where `Raised` stands for an exception. The clock (`datetime.now`, line 89) is
read once per ticker: one ticker's step takes the reading `now`, and `main`'s
loop takes `clock`, where `clock(t)` is the reading while ticker `t` is
processed.

Two behaviours of the code follow from the model:

- Appending to a file whose last byte is not a newline joins the first new row
  onto the old last line (`AppendJoinsLastLine`). Files the program writes
  itself always end with a newline, so `AppendThenResume` and
  `ReconcileIdempotent` require this of an existing file.
- A file that ends in an empty line (`...\n\n`) has no resume point. A non-empty
  download therefore rewrites it, dropping its earlier rows
  (`BlankLastLineIsRewritten`).

## Model

| member | source | states |
|---|---|---|
| LastLine.LastNewlineBefore | stock_collector.py:32-33 | the index of the last newline before position k, or -1; no newline lies between it and k |
| LastLine.LastLineStart | stock_collector.py:29-35 | where the scan leaves the position: 0 for a file shorter than two bytes; otherwise just after a newline, with no newline between there and the final byte; 0 when there is no such newline |
| LastLine.ReadLine | stock_collector.py:37 | `readline` in binary mode: a prefix of the rest of the file that holds no newline before its last byte and ends either with a newline or at the end of the file |
| LastLine.ClassifyLine | stock_collector.py:37-51 | the classification of the line read: none when it strips to nothing, holds no comma, or has `datetime` or `date` (ignoring case) as first field; otherwise what parsing the first field gives. `ClassifyRowLine` and `ClassifyHeaderLine` fix its value on the lines the program writes |
| LastLine.ResumePoint | stock_collector.py:24-51 | the classification of the line read from where the scan stops; `GetLastDatetime` is proved equal to it, and `ResumeAfterRows` reads written rows back through it |
| LastLine.GetLastDatetime | stock_collector.py:24-55 | the backward scan, with both OSError fallbacks to position 0, returns exactly the classification of the file's last line (`ResumePoint`) |
| LastLine.LastLineIsTail | stock_collector.py:29-37 | the line read after the scan is the whole rest of the file from the scan position |
| LastLine.LastLineOfAppend | stock_collector.py:29-37 | after a prefix that ends a line, one more line is where the scan stops, and it is the line read |
| LastLine.ResumeOfAppendedLine | stock_collector.py:24-51 | the resume point of such a file is the classification of its last line alone |
| LastLine.ResumeOfBlankLastLine | stock_collector.py:31-39 | a file whose last two bytes are newlines has no resume point: the scan skips the final newline, stops at the one before it, and the line read strips to empty |
| LastLine.ResumeOfEmptyFile | stock_collector.py:31-39 | an empty file has no resume point |
| LastLine.IsHeaderName | stock_collector.py:44-45 | `date_str.lower()` is `datetime` or `date`; such a field starts with `d` or `D`, so no rendered timestamp is one |
| LastLine.HeaderNameIgnoresCase | stock_collector.py:44 | two fields that agree byte for byte up to case are both header names or neither is |
| LastLine.HeaderNameSpellings | stock_collector.py:44 | `Datetime`, `DATETIME`, `date` and `DaTe` are header names; `Dates` and `time` are not |
| CsvBytes.StripLeft | stock_collector.py:37 | leading whitespace removed: a suffix whose dropped bytes are all whitespace and whose first byte is not |
| CsvBytes.StripRight | stock_collector.py:37 | trailing whitespace removed: a prefix whose dropped bytes are all whitespace and whose last byte is not |
| CsvBytes.Strip | stock_collector.py:37 | `strip()`: neither end is whitespace, and the result is empty exactly when every byte is whitespace |
| CsvBytes.StripIsSlice | stock_collector.py:37 | `strip()` returns the slice of the line between its leading and its trailing whitespace |
| CsvBytes.StripKeepsPrefix | stock_collector.py:37 | stripping a line that starts with a non-space byte keeps every byte up to any later non-space byte |
| CsvBytes.FirstField | stock_collector.py:42 | `split(',')[0]`: a comma-free prefix, followed by a comma whenever it is shorter than the line |
| CsvBytes.FirstFieldBeforeComma | stock_collector.py:42 | a line beginning with a comma-free `p` and a comma has `p` as first field |
| CsvBytes.CsvTail | stock_collector.py:134 | the fields after the index start with a comma and hold no newline when the fields hold none |
| CsvBytes.IsSpace | stock_collector.py:37 | the one-byte characters `strip()` removes: bytes 9-13 and 28-32; `SpaceBytes` states what it contains |
| CsvBytes.SpaceBytes | stock_collector.py:37 | whitespace is control bytes and space, never a comma; tab, line feed, carriage return and space are whitespace |
| CsvBytes.LowerByte | stock_collector.py:44 | `lower()` on one byte: the result is never a capital letter, and only a capital changes, to its small letter |
| CsvBytes.Lower | stock_collector.py:44 | `lower()` on a field: same length, each byte lowered by `LowerByte` |
| Timestamps.Localize | stock_collector.py:84-86 | `tz_localize` keeps the wall clock and attaches the offset |
| Timestamps.Convert | stock_collector.py:118 | `tz_convert`/`astimezone` keep the instant; the wall clock moves by the difference of the offsets |
| Timestamps.LocalDate | stock_collector.py:95-96 | `.date()` is the day whose 86400 seconds contain the wall clock |
| Timestamps.WellRendered | stock_collector.py:134 | the shape of a timestamp `to_csv` writes as the first field: it starts with a digit and holds no comma or newline |
| Timestamps.ValidCodec | stock_collector.py:48 | ASSUMED, not proved: every rendered instant is well shaped and `pd.to_datetime` parses it back to the same instant at +05:30; every write-then-resume lemma requires it |
| Timestamps.ValidCodecSatisfiable | stock_collector.py:48 | a concrete codec (unary counting) meets `ValidCodec`, so the lemmas that require it have inputs |
| SeriesFile.RenderRowsAppend | stock_collector.py:134 | writing two batches one after the other writes the concatenation of the batches |
| SeriesFile.RenderRowsEndsLine | stock_collector.py:134 | written rows end with a newline |
| SeriesFile.RowLineIsOneLine | stock_collector.py:134 | a written row is exactly one line |
| SeriesFile.ClassifyRowLine | stock_collector.py:37-51 | a written row line, read back as a last line, gives the row's instant at +05:30 |
| SeriesFile.ClassifyHeaderLine | stock_collector.py:44-45 | the header line `Datetime,...` is classified as holding no timestamp |
| SeriesFile.ResumeAfterRows | stock_collector.py:24-51 | write-then-resume: after any prefix ending a line, once a batch is written the resume point is the instant of its last row |
| SeriesFile.SplitLastRow | stock_collector.py:134 | the bytes of a batch are a part ending a line followed by the last row's line |
| SeriesFile.ResumeOfHeaderOnly | stock_collector.py:138 | a file holding only the header `to_csv` writes has no resume point |
| SeriesFile.HeaderLine | stock_collector.py:138 | the header `to_csv` writes on a rewrite: `Datetime`, the column names, a newline; `ClassifyHeaderLine` and `ResumeOfHeaderOnly` show it reads back as no resume point |
| SeriesFile.RowLine | stock_collector.py:134 | one written row: the rendered instant, the fields, a newline; `RowLineIsOneLine` and `ClassifyRowLine` show it is one line that reads back as its instant |
| SeriesFile.RenderRows | stock_collector.py:134 | the lines of a batch in order; `RenderRowsAppend` and `RenderRowsEndsLine` show it concatenates and ends a line |
| SeriesFile.AppendJoinsLastLine | stock_collector.py:134 | appending a row to a file whose last line has no newline joins them: the scan stops at the start of the old line, the line read is the old line followed by the row's line, and the resume point is the classification of that joined line |
| SeriesFile.JoinUnterminated | stock_collector.py:29-37 | an unterminated last line followed by one more line is read back as a single line |
| Collector.AwareResume | stock_collector.py:84-86 | a naive resume point is taken as Asia/Kolkata, keeping its wall clock; an aware one is kept |
| Collector.ChooseRequest | stock_collector.py:78-99 | no resume point gives the 60-day period; otherwise the 60-day period exactly when the resume instant is before now minus 59 days, and else the resume point's local date |
| Collector.IndexInstant | stock_collector.py:113-118 | a naive index entry is read as UTC; converting to Asia/Kolkata keeps the instant |
| Collector.NewRows | stock_collector.py:128 | `data[data.index > start_dt]`: no longer than the batch, and holding exactly the batch rows strictly after the resume instant |
| Collector.IsEmpty | stock_collector.py:101 | `data.empty`: no rows or no columns; `Store` proves such a download changes nothing |
| Collector.DisplayRow | stock_collector.py:113-118 | a provider row with its index replaced by the instant `IndexInstant` gives, its values kept |
| Collector.ToDisplayZone | stock_collector.py:113-118 | every provider row normalised, in order; `DisplayWellFormed` shows it keeps the rows' shape |
| Collector.SinceInstant | stock_collector.py:121-125 | the instant of the resume point after localising and converting it to Asia/Kolkata; conversion keeps it, so the filter compares instants |
| Collector.ResumeOf | stock_collector.py:68-73 | none when the ticker has no file, otherwise the resume point of its bytes |
| Collector.Store | stock_collector.py:101-139 | no other ticker's file changes; an existing file still exists; with a resume point the file only grows; a failed or empty download changes nothing |
| Collector.Reconcile | stock_collector.py:65-139 | reading the resume point, then storing a known download; `ReconcileIdempotent` and `ReconcileKeepsSeries` are stated about it |
| Collector.Collect | stock_collector.py:57-142 | one ticker's step: the request chosen from its resume point and clock reading, then `Reconcile` of the provider's answer; `FetchAndSave` is proved equal to it |
| Collector.CollectAll | stock_collector.py:148-149 | the steps of the listed tickers in order, each with its own clock reading; `Run` is proved equal to it and `CollectAllAt` gives each ticker's file |
| DataDirectory.DataDir.FetchAndSave | stock_collector.py:57-142 | the step-by-step method leaves the directory exactly as `Collect` says |
| DataDirectory.DataDir.Run | stock_collector.py:144-151 | the loop over `TICKERS`, each ticker with its own reading of the clock, leaves the directory as `CollectAll` over `TICKERS` in order |
| CollectorProperties.StartDateWithinWindow | stock_collector.py:88-96 | a start-date request begins at the local midnight before the resume point, and that midnight is less than 60 days before now |
| CollectorProperties.NewRowsConcat | stock_collector.py:128 | the filter distributes over concatenation, so it keeps the batch's order |
| CollectorProperties.NewRowsEmpty | stock_collector.py:128-132 | nothing is left exactly when no row is strictly after the resume instant |
| CollectorProperties.NewRowsOfAscending | stock_collector.py:128 | on an ascending batch the rows kept are a suffix, and every row before it is at or before the resume instant |
| CollectorProperties.NewRowsAllAfter | stock_collector.py:128 | a batch entirely after the resume instant is kept whole |
| CollectorProperties.NewRowsWellFormed | stock_collector.py:128 | filtering keeps rows from the batch, so it keeps their shape |
| CollectorProperties.NothingAfterLast | stock_collector.py:128-132 | an ascending batch has nothing after its own maximum |
| CollectorProperties.RewriteThenResume | stock_collector.py:137-139 | without a resume point the file becomes the header and the whole batch, and its resume point becomes the batch's last instant |
| CollectorProperties.AppendThenResume | stock_collector.py:121-135 | with a resume point and newer rows, exactly those rows are appended after the old bytes, and the resume point becomes the last of them |
| CollectorProperties.StoreAtMaximum | stock_collector.py:128-132 | a resume point at the batch maximum leaves the directory unchanged |
| CollectorProperties.StoreAppendsNewRows | stock_collector.py:121-135 | with a resume point, the file is its old bytes followed by the newer rows, and unchanged byte for byte when there are none |
| CollectorProperties.ReconcileIdempotent | stock_collector.py:65-139 | a second run with the same ascending batch changes nothing, provided an existing file ends with a newline |
| CollectorProperties.StrictlyAscendingIsAscending | stock_collector.py:128 | a strictly ascending batch is ascending |
| CollectorProperties.ConcatStrictlyAscending | stock_collector.py:134 | rows all after a strictly ascending series extend it strictly ascending |
| CollectorProperties.ConcatWellFormed | stock_collector.py:134 | appending well-formed rows keeps a well-formed series |
| CollectorProperties.ReconcileKeepsSeries | stock_collector.py:65-135 | a file that is a header and a strictly ascending series stays one, extended by exactly the batch rows after its last row: no duplicates and no reordering |
| CollectorProperties.StoreExtendsSeries | stock_collector.py:121-135 | the same step once the resume point is known to be the series' last row |
| CollectorProperties.StoreSeriesContent | stock_collector.py:121-135 | appending to a header and series gives the header and the series extended by the newer rows |
| CollectorProperties.ExtendSeries | stock_collector.py:128 | a strictly ascending series followed by the newer rows of a strictly ascending batch is strictly ascending |
| CollectorProperties.HeaderOnlyIsRewritten | stock_collector.py:65-73 | a header-only file is replaced by the header and the whole batch |
| CollectorProperties.BlankLastLineIsRewritten | stock_collector.py:65-73 | a file ending in an empty line is replaced by the header and the whole batch, earlier rows included |
| CollectorProperties.FirstRun | stock_collector.py:65-73 | a ticker without a file gets the header and the batch, and its resume point becomes the batch's last instant |
| CollectorProperties.NextRun | stock_collector.py:121-135 | a file holding a header and rows gets the batch rows after its last row appended |
| CollectorProperties.TwoRunScenario | stock_collector.py:57-142 | rows at t1 < t2 < t3, then rows at t2, t3, t4: the file ends as the header, the first three rows and the row at t4 |
| CollectorProperties.NewRowsOfThree | stock_collector.py:128 | of three rows, only one strictly after the resume instant is kept |
| CollectorProperties.CollectLocal | stock_collector.py:57-142 | one ticker's step depends only on that ticker's file and that ticker's downloads |
| CollectorProperties.StoreLocal | stock_collector.py:101-139 | storing one ticker's download depends only on that ticker's file |
| CollectorProperties.CollectAllAt | stock_collector.py:148-149 | after the loop, a listed ticker's file is its own step, at its own clock reading, applied to its initial file, and any other ticker's file is unchanged |
| CollectorProperties.TickersDistinct | stock_collector.py:12-15 | no ticker is listed twice |
| DataDirectory.TICKERS | stock_collector.py:12-15 | the eight tickers `main` processes, in the order it processes them |
| CollectorProperties.RunIsolation | stock_collector.py:141-149 | after `main`, a ticker's file depends only on its own file, its own downloads and the clock while it is processed, whatever the other tickers' downloads and clock readings are, exceptions included |

## Left out

- `gdrive_sync.py` and `generate_token.py` are not part of this model. They are
  thin wrappers over the Google Drive client and an interactive OAuth flow.
- Network access: `yf.download` is the `provider` parameter. The request's
  interval, `progress` and `auto_adjust` arguments are left out, because they do
  not change the decisions modelled.
- `print` logging, `ensure_dir`/`os.makedirs` and the path layout
  `data_ist/<ticker>/<ticker>_data.csv` are left out: files are keyed by ticker.
  A failing `makedirs` would abort `main`, and the model does not capture that.
- Exceptions from anything other than the provider are left out. This covers a
  failing `open` in `get_last_datetime`, which returns none (line 53), and a
  failing `to_csv`.
- UTF-8 decoding at line 37: one byte is read as one character. An invalid byte
  sequence, which makes the resume point none, is not modelled. `strip()` removes
  only one-byte whitespace, and `lower()` is ASCII.
- pandas parsing and rendering: `Codec` is abstract. Its round trip is assumed
  (`ValidCodec`), not derived from a timestamp format; `ValidCodecSatisfiable`
  shows only that some codec meets it. `NaT` and sub-second
  precision are left out.
- Line endings: the header and every row end in `\n`, as `to_csv` writes on a
  POSIX host. On Windows it writes `\r\n`; the backward scan and `strip()`
  treat both the same (`SpaceBytes`), but the model does not render them.
- Asia/Kolkata is the fixed offset +05:30. Its historical offsets before 1945
  are left out.
- MultiIndex column flattening (lines 106-110) is left out. Column names are
  taken as already flat.
- The pandas index carries one time zone for the whole table. The model lets
  each row carry its own, which is more general.
- The provider is a function of ticker and request. It therefore answers the
  same way to the same request within a run, which the code does not promise.
- `ReconcileIdempotent` requires that an existing file end with a newline. The
  code promises nothing for files edited by hand to lack one.
