# aef-export, modelled in Dafny

A model of the statable core of `aef-export`, a tool that exports satellite
embedding images and their coverage metadata from Earth Engine to cloud
storage and BigQuery and keeps a small sqlite ledger of export jobs. The model
covers:

- **the export ledger** (`aef_export/sqlite.py`): the eight-field `Row`, the
  `exports` table as a sequence of records with AUTOINCREMENT ids, schema
  creation with `CREATE TABLE IF NOT EXISTS`, and `insert_row`, whose query
  text and bound values are built from the row's field names and values;
- **the scoped workload tag** (`aef_export/utils.py`): `set_workload_tag` as a
  method over an Earth Engine `Session` (a class holding the current tag and
  the trace of calls made to the service) whose body's calls and outcome are
  parameters;
- **single-image export** (`aef_export/embeddings.py`): the quantizer as an
  Earth Engine image expression with a per-pixel meaning, and `export_image`,
  which builds the request, then creates and starts the task inside the
  "export-image" tag scope;
- **coverage export** (`aef_export/coverage.py`): `image_to_feature` as a
  map transform, and `export_image_collection`, which builds the BigQuery
  request and starts it inside the "image-collection-coverage" tag scope.

Files: `wrappers.dfy` (Option, Result), `strings.dfy` (Python's `str.join`,
`str.split` with a one-character separator and `s[:n]`, with their round
trips), `earth_engine.dfy` (image expressions, their per-pixel value over
abstract floating-point primitives, export requests, the call trace and the
`Session` class), `utils.dfy`, `embeddings.dfy`, `coverage.dfy`, `ledger.dfy`.

Foreign code is abstract. The service's answer to `task.start()` is a
parameter (`Started(taskId)` or `Raised(error)`). The uuid's text, the date
formatter and the server's `pow`, `round` and `int8` are parameters too.
`Sound(n)` lists the only facts the proofs assume about these primitives: a
power of a non-negative number is non-negative, rounding never crosses zero,
and an integer in [-128, 127] casts to itself.

## Model

| member | source | states |
|---|---|---|
| Ledger.Values | aef_export/sqlite.py:42-48 | the parameter tuple `tuple(asdict(row).values())`: one value per field, in declaration order; the two timing fields become NULL when absent (read back by `RecordReadsBack`) |
| Ledger.ColumnList | aef_export/sqlite.py:43 | the column list `", ".join(d.keys())`; `InsertListsParse` proves it names the eight fields in order |
| Ledger.Placeholders | aef_export/sqlite.py:44 | the placeholder list, one "?" per value; `InsertListsParse` proves it has exactly one per column |
| Ledger.InsertQuery | aef_export/sqlite.py:45 | the statement text `INSERT INTO exports (<columns>) VALUES (<placeholders>)`, whose two lists `InsertListsParse` reads back |
| Ledger.InsertListsParse | aef_export/sqlite.py:42-45 | the INSERT's column list reads back, item by item, as the eight field names in declaration order (task_id … s3_path), and its placeholder list as exactly one "?" per column |
| Ledger.BindPairsInOrder | aef_export/sqlite.py:48 | with distinct column names, the column named `columns[i]` receives the i-th bound value |
| Ledger.RecordReadsBack | aef_export/sqlite.py:9-17 | the stored record of a row (its values bound to its field names) reads back as exactly that row, the two timing fields included as NULL or a number |
| Ledger.Init | aef_export/sqlite.py:24-38 | `CREATE TABLE IF NOT EXISTS exports`: the table exists afterwards and nothing else changes; `InitIdempotent` proves a second creation is a no-op |
| Ledger.InsertError | aef_export/sqlite.py:48 | the error executing the INSERT raises, in the order sqlite3 meets them: no `exports` table at prepare time, then a `year` outside sqlite's 64-bit INTEGER range while binding, then AUTOINCREMENT ids used up at the step |
| Ledger.Insert | aef_export/sqlite.py:41-49 | executing and committing the INSERT: on `InsertError` nothing changes, otherwise the row's values are stored under the next id; `InsertAppendsOne` states what that means |
| Ledger.InitIdempotent | aef_export/sqlite.py:24-38 | creating the schema keeps the ids consistent, never touches the records or the id counter, and a second creation changes nothing |
| Ledger.InsertAppendsOne | aef_export/sqlite.py:41-49 | an insert fails exactly when the table is missing, the year does not fit a 64-bit INTEGER or the largest id has been handed out; otherwise it appends exactly one record holding the row's values, with an id greater than every earlier id, earlier records unchanged |
| Ledger.InsertAllSucceeds | aef_export/sqlite.py:41-49 | once the table exists, a sequence of inserts whose years fit and for which ids remain all succeed, hand out one id per row and keep every earlier record and the id ordering |
| Ledger.InsertAllAppends | aef_export/sqlite.py:41-49 | a successful sequence of inserts appends one record per row, in order, each holding that row's values, after the records already there |
| Ledger.Database.constructor | aef_export/sqlite.py:20-21 | a new database file has no table, no records and no id handed out |
| Ledger.Database.InitDatabase | aef_export/sqlite.py:24-38 | the table exists afterwards; records and the id counter are as before |
| Ledger.Database.InsertRow | aef_export/sqlite.py:41-49 | executes the text `InsertQuery(row)` with the row's values in column order; returns nothing on success, with the stored state that of `Insert` (one appended record); otherwise returns `Insert`'s error (no table, integer overflow, ids used up) and changes nothing |
| Strings.Join | aef_export/sqlite.py:43-44 | `sep.join(parts)`; `JoinSplit` and `SplitJoin` prove it inverse to `Split` for parts free of the separator |
| Strings.Split | aef_export/embeddings.py:62 | `s.split(c)` for one character: at least one part, none containing `c`; `SplitJoin` proves joining the parts with `c` gives `s` back |
| Strings.LastSegment | aef_export/embeddings.py:62 | `s.split(c)[-1]`, characterised by `LastSegmentIsLongestSuffix` |
| Strings.Take | aef_export/coverage.py:70 | `s[:n]` is the prefix of `s` of length min(n, \|s\|) |
| Strings.LastSegmentIsLongestSuffix | aef_export/embeddings.py:62 | `s.split(c)[-1]` is the longest suffix of `s` without `c`: a suffix, free of `c`, and preceded by `c` when shorter than `s` |
| EarthEngine.ClampValue | aef_export/embeddings.py:27 | `clamp(low, high)` lands in [low, high] and leaves values already there unchanged |
| EarthEngine.Session.SetTag | aef_export/utils.py:17 | the tag becomes the given name and one set call is recorded |
| EarthEngine.Session.ResetTag | aef_export/utils.py:21 | no tag remains and one reset call is recorded |
| Utils.WithWorkloadTag | aef_export/utils.py:6-21 | the calls made are set(tag), then the body's calls, then reset, whatever the body's outcome; no tag remains; the body's outcome, a raised exception included, is returned unchanged |
| Utils.ScopeSetsAndResetsOnce | aef_export/utils.py:17-21 | for a body that does not touch the tag, the scope sets it exactly once, first, and resets it exactly once, last |
| Utils.BodyRunsUnderTag | aef_export/utils.py:17-19 | every call of such a body is made while the scope's tag is in force, whatever calls came before |
| Utils.NoTagAfterScope | aef_export/utils.py:18-21 | after the scope no tag is in force, whatever came before and whatever the body did |
| Embeddings.QuantizeEmbeddings | aef_export/embeddings.py:6-28 | the quantizer as an image expression (abs, pow 1/2, times signum, times 127.5, round, clamp to [-127, 127], int8); `QuantizedValue` states what each pixel becomes |
| Embeddings.SourceImage | aef_export/embeddings.py:57-59 | the asset, quantized if and only if `quantize` is set; `ExportedValues` states the per-pixel result |
| Embeddings.Description | aef_export/embeddings.py:62-65 | the export's description; `DescriptionNamesLastSegment` states its form |
| Embeddings.QuantizedValue | aef_export/embeddings.py:20-27 | every pixel of the quantized image (root of the magnitude times the sign, times 127.5, rounded, clamped to [-127, 127], cast to int8) is a whole number in [-127, 127], never of the opposite sign to its input, and 0 for input 0 |
| Embeddings.ExportedValues | aef_export/embeddings.py:57-59 | the exported image is quantized if and only if `quantize` is set: with it every value is bounded and sign-preserving as above, without it every value is the asset's own |
| Embeddings.DescriptionNamesLastSegment | aef_export/embeddings.py:62-65 | the description is "export-image-" followed by the part of the image id after its last "/", or the whole id when it has none |
| Embeddings.ExportImage | aef_export/embeddings.py:31-73 | the calls are set("export-image"), create and start of one toCloudStorage task (image quantized iff the flag, which defaults to false; bucket and prefix unchanged; maxPixels 2e10; cloud-optimized), reset; returns the started task's id, or the start's exception after the reset |
| Embeddings.ExportStartsOnceUnderTag | aef_export/embeddings.py:61-73 | within those calls the task is created and then started exactly once, both under the "export-image" tag, and no tag remains afterwards |
| Coverage.ImageToFeature | aef_export/coverage.py:7-34 | fails exactly when the image lacks system:band_names or system:bands (`Dictionary.remove` without ignoreMissing), naming a missing key; otherwise the feature has every image property except the two band keys with its value, start_date and end_date set to the formatted start and end times (overwriting any earlier values), no system:band_names or system:bands, no other keys, and the footprint reprojected to EPSG:4326 |
| Coverage.TableReference | aef_export/coverage.py:73 | the BigQuery table reference; `TableReferenceParts` states its form |
| Coverage.ShortUuid | aef_export/coverage.py:70 | `str(uuid)[:8]`, a prefix of at most eight characters by `Strings.Take` |
| Coverage.CoverageDescription | aef_export/coverage.py:74 | the export's description; `CoverageDescriptionNamesUuid` states its form |
| Coverage.TableReferenceParts | aef_export/coverage.py:73 | the table reference is project, dataset and table joined by "."; splitting it at "." gives the three names back |
| Coverage.CoverageDescriptionNamesUuid | aef_export/coverage.py:70-74 | the description is "image-collection-coverage-" followed by the first eight characters of the uuid's text |
| Coverage.ExportImageCollection | aef_export/coverage.py:37-79 | the calls are set("image-collection-coverage"), create and start of one toBigQuery task (the collection's features, the table reference, the description, overwrite true), reset; returns the task's id or the start's exception |
| Coverage.CoverageExportStartsOnceUnderTag | aef_export/coverage.py:69-79 | within those calls the task is created and then started exactly once under the "image-collection-coverage" tag, and no tag remains afterwards |

## Left out

- `initialize_ee` (`ee.Authenticate`, `ee.Initialize`): foreign calls with no logic of their own.
- `aef_export/cli.py` (argument parsing and echo) and `aef_export/settings.py` (environment loading behind a cached singleton): plumbing.
- Earth Engine evaluation: images are expressions, and their meaning is given per pixel for expressions over one asset. `ImageCollection.map(image_to_feature)` stays a request value naming the collection. Export task execution is not modelled.
- Floating point: `pow`, `round` and the `int8` cast are abstract, constrained only by `Sound`. The square-root value itself, 127.5's binary rounding and NaN or infinite inputs are not modelled.
- Geometry reprojection and `ee.Date(...).format("YYYY-MM-dd")` are opaque: the reprojection is a record of its arguments, and the formatter is a parameter applied to what `img.get` returns. A server-side failure to format a missing timestamp is not modelled.
- `uuid.uuid4()`: its text is a parameter; only the eight-character prefix is modelled.
- The sqlite engine: the database file name, connections (never closed in the code), SQL parsing beyond reading the two parenthesised lists, column type affinity and durability. Commit is modelled as the insert taking effect. The schema creation is not committed explicitly, but Python's sqlite3 runs it outside a transaction.
- Python's dataclass does not check field types; the model's `Row` is typed. `year` is an unbounded `int`, and the INSERT fails with `IntegerOverflow` when it does not fit 64 bits; the timing fields are exact reals.
- Embeddings.QuantizedValue: does not promise that a quantized value has the same sign as its input, because a small non-zero input rounds to 0 after scaling; it promises only that the value never has the opposite sign, and that 0 stays 0.
- Ledger.Database.InsertRow: `insert_row` keeps its statement and parameters local; the method hands them back so that their text and order can be stated.
- The service's own checks: `setWorkloadTag` rejecting a malformed tag before the `try` is entered, and `toCloudStorage`/`toBigQuery` rejecting their arguments. A failure is modelled only as the exception raised by `task.start()`.
- `resetWorkloadTag` restores the default tag (no tag), not the tag in force before the scope; nested scopes are modelled with that behaviour.
