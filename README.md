# gmalt importer core, modelled in Dafny

This project models the core of the gmalt command-line tools. These tools read
SRTM elevation tiles (`.hgt` files) and load them into a database. The model
covers the following parts:

- **Tile geometry** (`hgt_geometry.dfy`). This is the HGT parser of `hgt2sql/hgt.py`.
  - The bottom-left sample centre comes from a tile name such as `N00E010.hgt`.
  - The sample size and the covered area come from the 1201 by 1201 grid.
  - The four corners, the strict inside test and the `get_elevation` guard are included.
- **The tile scan** (`hgt_scan.dfy`). This is `_import_file` of `hgt2sql/__init__.py` and `gmaltcli/__init__.py`.
  - The file name is split into a start latitude and longitude.
  - The file is read as big-endian signed 16-bit samples.
  - The counters count zero, void (-32768) and other samples, distinct values, and changes of value.
- **The worker pool** (`worker_engine.dfy`, `worker_pool.dfy`). This is `SafeCounter`, `WorkerPool` and `Worker` of `gmaltcli/worker.py` and of its older copy `hgt2sql/worker.py`.
  - Threads share one FIFO queue, one counter and one stop event.
  - `fill` loads the queue, `run` and `_get_queue` drain it, and `start` raises `WorkerPoolException` when some item failed.
  - The classes of `worker_pool.dfy` change their fields in place. Each method is proved to produce the state that the pure state machine of `worker_engine.dfy` computes. The properties are proved about that state machine.
- **The import worker** (`import_worker.dfy`). This is `_get_iterator` and `_execute_import` of `ImportWorker` in `gmaltcli/worker.py`.
- **The database managers** (`database.dfy`). This is `gmaltcli/database.py`.
  - The registry maps a driver and raster mode to a manager class.
  - `prepare_params` exists for both managers.
  - The connection life cycle, `prepare_environment` and `insert_data` work against an abstract database state.
- **The helper scripts**:
  - `tools/hgtgenerator.py` (`hgt_generator.dfy`) writes random test tiles.
  - `tools/appendmd5.py` (`append_md5.dfy`) parses `md5sum` lines and annotates the dataset.
  - `tools/srtm3.py` (`srtm3.dfy`) indexes the `.zip` links of the six SRTM3 folder pages.
- **Shared pieces.**
  - `text.dfy` holds Python's slicing, `rfind`, `os.path.basename`, `os.path.splitext` and greedy regex runs.
  - `wrappers.dfy` holds `Option`, `Result` and `Outcome`. An `Outcome` is a raise or a normal return.

Python exceptions become `Failure`/`Fail` values, one error constructor for each place the source raises; the comment on each constructor names the exception it stands for. Where the Python exception carries no data, the constructor's argument is the model's own addition: `HgtGeometry.MalformedFilename` and `AppendMd5.NoMatch` stand for the `AttributeError` of calling `.groups()`/`.group(1)` on a failed match (which names neither the file nor the line), and `AppendMd5.MissingZip` stands for a `KeyError` on `zip`.

## Model

| member | source | states |
|---|---|---|
| Text.Slice | hgt2sql/__init__.py:119-124 | Python's clamped slice: within bounds it is the subsequence; an empty or out-of-range slice is `""`; never longer than the string |
| Text.Basename | hgt2sql/__init__.py:89 | the base name contains no `/` and is a suffix of the path |
| Text.SplitExt | tools/srtm3.py:33 | stem + extension is the whole path, and the extension is empty or one dot followed by no dot and no `/` |
| Text.SplitExtOfExtension | tools/srtm3.py:33 | a stem with a non-dot character after its last `/`, followed by a `.ext`, splits back into exactly that stem and extension |
| Text.Span | tools/appendmd5.py:14 | a greedy regex run: the longest prefix whose characters all satisfy the class |
| HgtGeometry.SquareWidth | hgt2sql/hgt.py:19-21 | 1201 squares make exactly one degree of longitude, so a square is strictly between 0 and 1 degree |
| HgtGeometry.SquareHeight | hgt2sql/hgt.py:23-25 | 1201 squares make exactly one degree of latitude |
| HgtGeometry.AreaWidth | hgt2sql/hgt.py:27-29 | the area is wider than one degree by exactly two squares (half a square on each side of the outer sample centres) |
| HgtGeometry.AreaHeight | hgt2sql/hgt.py:31-33 | the area is taller than one degree by exactly two squares |
| HgtGeometry.ParseBottomLeftCenter | hgt2sql/hgt.py:41-54 | a failed match fails with `MalformedFilename`, standing for the `AttributeError` of `.groups()` on `None`; the rejected name in it is the model's payload |
| HgtGeometry.ParseAcceptsPattern | hgt2sql/hgt.py:42-45 | parsing succeeds exactly when the name matches `^[NS][0-9]+[WE][0-9]+` |
| HgtGeometry.ParseParts | hgt2sql/hgt.py:41-54 | hemisphere, digits, hemisphere, digits and any suffix not starting with a digit parse to the decimal values, latitude negated for `S` and longitude for `W` |
| HgtGeometry.ParseTileName | hgt2sql/hgt.py:41-54 | the tile name printed for any integer latitude and longitude, zero-padded to any widths, parses back to those coordinates |
| HgtGeometry.ParseNorthEastExample | gmaltcli/test/test_hgt.py:93 | `N00E010` gives (0, 10) |
| HgtGeometry.ParseSouthWestExample | gmaltcli/test/test_hgt.py:94 | `S20W03` gives (-20, -3) |
| HgtGeometry.ParseMixedHemispheresExample | gmaltcli/test/test_hgt.py:95 | `N01W001` gives (1, -1) |
| HgtGeometry.ParseRejectsExample | gmaltcli/test/test_hgt.py:96-97 | `SF01AB001.hgt` is rejected (the test only expects some exception); the model's error also records the name |
| HgtGeometry.ParseExample | hgt2sql/hgt.py:41-54 | a name made of exactly hemisphere, digits, hemisphere, digits parses to the signed decimal values |
| HgtGeometry.CornersOf | hgt2sql/hgt.py:56-67 | the corners of the area around a bottom-left sample centre, in the source's order (bottom-left, top-left, top-right, bottom-right); `HgtGeometry.CornersFormRectangle` states that they form the area's rectangle |
| HgtGeometry.IsInside | hgt2sql/hgt.py:69-74 | the strict inside test against the bottom-left and top-right corners; `HgtGeometry.TileIsInside` and `HgtGeometry.BoundaryIsOutside` state what it accepts and refuses |
| HgtGeometry.NewParser | hgt2sql/hgt.py:6-17 | the parser constructor: a non-file argument raises, a badly named file raises the parse error, and otherwise the parser holds the base name, the centre and its corners; `HgtGeometry.NewParserFromTileName` states it for tile names |
| HgtGeometry.GetElevation | hgt2sql/hgt.py:76-78 | `get_elevation` checks only that the point is inside; `HgtGeometry.GetElevationGuard` states which points it refuses |
| HgtGeometry.CornersFormRectangle | hgt2sql/hgt.py:56-67 | the corners are an axis-aligned rectangle, area-wide and area-high, whose bottom-left corner is half a square below and left of the bottom-left centre |
| HgtGeometry.TileIsInside | hgt2sql/hgt.py:69-74 | every point of the nominal 1 by 1 degree tile, edges included, is inside |
| HgtGeometry.BoundaryIsOutside | hgt2sql/hgt.py:69-74 | the test is strict: no point on the rectangle's boundary is inside |
| HgtGeometry.NewParserFromTileName | hgt2sql/hgt.py:6-17 | opening `dir/<tile name><suffix>` yields a parser whose name is the base name and whose centre and corners come from the tile's coordinates |
| HgtGeometry.GetElevationGuard | hgt2sql/hgt.py:76-78 | `get_elevation` raises "point … is not inside" for every point on or beyond the corners, and accepts every point of the nominal tile |
| HgtScan.DecodeInt16 | hgt2sql/__init__.py:104 | `struct.unpack('>h')` yields a signed 16-bit value, negative exactly when the high byte is 128 or more |
| HgtScan.EncodeInt16 | tools/hgtgenerator.py:22 | `struct.pack('>h')` yields two bytes |
| HgtScan.DecodeEncode | tools/hgtgenerator.py:22 | unpacking what was packed gives back every 16-bit value |
| HgtScan.EncodeDecode | hgt2sql/__init__.py:104 | packing what was unpacked gives back every pair of bytes |
| HgtScan.Samples | hgt2sql/__init__.py:100-104 | an even-length file holds one sample per two bytes |
| HgtScan.SamplesAt | hgt2sql/__init__.py:101-104 | sample k is the big-endian value of bytes 2k and 2k+1 |
| HgtScan.EncodeAll | tools/hgtgenerator.py:19-22 | the output file has two bytes per value |
| HgtScan.EncodeAllAt | tools/hgtgenerator.py:22 | bytes 2k and 2k+1 of the file are the packing of value k |
| HgtScan.SamplesOfEncodeAll | tools/hgtgenerator.py:19-22 | reading a written file gives back exactly the written values |
| HgtScan.CountsPartition | hgt2sql/__init__.py:108-115 | every sample is counted as zero, void or value, exactly once |
| HgtScan.CountsAreMultiplicities | hgt2sql/__init__.py:108-111 | the zero and void counters are the multiplicities of 0 and -32768 in the file |
| HgtScan.DistinctValuesSnoc | hgt2sql/__init__.py:112-114 | a sample adds itself to the value set exactly when it is neither zero nor void |
| HgtScan.DistinctValuesBounded | hgt2sql/__init__.py:112-114 | there are never more distinct values than counted values |
| HgtScan.RunCountIsChanges | hgt2sql/__init__.py:105-107 | `changes` is 0 for an empty file, and otherwise one more than the number of positions where a sample differs from the one before |
| HgtScan.SamplesSnoc | hgt2sql/__init__.py:100-104 | reading two more bytes appends exactly their sample |
| HgtScan.StatsSnoc | hgt2sql/__init__.py:105-115 | one loop turn moves the counters of a prefix to those of the prefix one sample longer |
| HgtScan.ReadSamples | hgt2sql/__init__.py:99-115 | the read loop yields the counters of the whole decoded file, or the unpack error when an odd byte is left; the same code is at gmaltcli/__init__.py:44-60 |
| HgtScan.ScanSamples | hgt2sql/__init__.py:99-115 | the scan of a whole file succeeds exactly when its length is even, and then counts one sample per two bytes; an odd trailing byte is the unpack error |
| HgtScan.ScanResult | hgt2sql/__init__.py:84-116 | what `_import_file` prints and logs (it returns `None`): the start point from the file-name reader as written, then the counters; its properties are stated by `HgtScan.ImportTileFile`; the same code is at gmaltcli/__init__.py:29-61 |
| HgtScan.ScanResultFixed | hgt2sql/__init__.py:84-116 | the same import with the longitude letter tested, used only to state the corrected half of the first finding |
| HgtScan.StatsOf | hgt2sql/__init__.py:105-115 | the counters of a whole file; that they partition the samples and are multiplicities is stated by `HgtScan.CountsPartition` and `HgtScan.CountsAreMultiplicities` |
| HgtScan.ImportFile | hgt2sql/__init__.py:84-116 | the import reads the start point from the base name without extension with the reader as written, then returns the counters, or the first error raised; the same code is at gmaltcli/__init__.py:29-61 |
| HgtScan.TileFileStem | hgt2sql/__init__.py:89 | the base name of `dir/<tile name>.hgt` without its extension is the tile name |
| HgtScan.ImportTileFile | hgt2sql/__init__.py:84-116 | importing `dir/<tile name>.hgt` starts at the tile's latitude and the absolute value of its longitude, and reports the counters of its samples, or the unpack error of an odd byte; the same code is at gmaltcli/__init__.py:29-61 |
| HgtScan.ImportTileFileFixed | hgt2sql/__init__.py:125-126 | with the longitude letter tested, the same import starts at the tile's own coordinates |
| HgtScan.ExtractCoordinates | hgt2sql/__init__.py:118-127 | the reader as written: it succeeds exactly when characters 1-2 and 4 onward are digit strings, a bad latitude is the `ValueError` that carries it, the latitude is negative only after `S`, and the longitude is negative only when the FIRST character is `W`; the same code is at gmaltcli/__init__.py:63-72 |
| HgtScan.ExtractCoordinatesFixed | hgt2sql/__init__.py:118-127 | the corrected reader: the same success and error cases, with the longitude negative only after a `W` in character 3 |
| HgtScan.LongitudeNeverNegated | hgt2sql/__init__.py:125-126 | as written, a name starting with `N` or `S` never yields a negative longitude; the same code is at gmaltcli/__init__.py:70-71 |
| HgtScan.ExtractParts | hgt2sql/__init__.py:118-127 | for `[NS]dd[EW]d+` both readers succeed; they agree on the latitude and differ only in the sign test of the longitude |
| HgtScan.ExtractOnTileName | hgt2sql/__init__.py:118-127 | as written, a tile name yields its latitude and the absolute value of its longitude |
| HgtScan.ExtractFixedOnTileName | hgt2sql/__init__.py:118-127 | with the longitude hemisphere tested, a tile name yields exactly its coordinates |
| HgtScan.FixedAgreesWithParser | hgt2sql/hgt.py:41-54 | the corrected reader and the HGT parser read the same coordinates from every tile name |
| HgtScan.WestExample | gmaltcli/__init__.py:63-72 | `N00W010` gives (0, 10) as written and (0, -10) corrected |
| HgtGenerator.Generate | tools/hgtgenerator.py:16-24 | width² draws in [0, 500] are kept in order and written packed, two bytes each |
| HgtGenerator.GeneratedFileDecodes | tools/hgtgenerator.py:18-22 | a generated file has even length, scans without error and reads back to the drawn values |
| HgtGenerator.GeneratedSamples | tools/hgtgenerator.py:20-22 | no generated sample is the void value, and each reads back as drawn |
| AppendMd5.ParseSumLine | tools/appendmd5.py:14-16 | a match has a non-empty alphanumeric sum and a name without a newline; a non-match fails with `NoMatch`, standing for the `AttributeError` of `m.group(1)` on `None`; the line in it is the model's payload |
| AppendMd5.ParseSucceedsIffMatch | tools/appendmd5.py:14-15 | parsing succeeds exactly when `re.match` finds `([A-Za-z0-9]+)\s+(.*)` at the start of the line (no end anchor), that is, when a non-empty alphanumeric run is followed by a whitespace character |
| AppendMd5.ParseByRuns | tools/appendmd5.py:14-16 | the groups are the greedy alphanumeric run and, after the whitespace run, the rest of the first line |
| AppendMd5.ParseFormatted | tools/appendmd5.py:14-16 | an `md5sum` line of sum, spaces and name parses back to exactly that sum and name |
| AppendMd5.ParseExample | tools/appendmd5.py:14-16 | `0a1b  N00E010.hgt.zip` gives sum `0a1b` for `N00E010.hgt.zip` |
| AppendMd5.SumsOf | tools/appendmd5.py:12-17 | the sums table the read loop builds, or the error of the first line that does not match; `AppendMd5.SumsOfFailsIff`, `AppendMd5.SumsOfKeys` and `AppendMd5.LaterLineWins` state its properties |
| AppendMd5.SumsOfFailurePersists | tools/appendmd5.py:12-17 | once a line does not match, the lines after it change nothing |
| AppendMd5.SumsOfFailsIff | tools/appendmd5.py:12-17 | reading the sums fails exactly when some line does not match |
| AppendMd5.SumsOfKeys | tools/appendmd5.py:12-17 | the table's names are exactly the file names some line of the listing gives |
| AppendMd5.LaterLineWins | tools/appendmd5.py:17 | a file's sum is the one on the last line naming it |
| AppendMd5.CollectSums | tools/appendmd5.py:12-17 | the read loop builds the table the specification function describes |
| AppendMd5.Join | tools/appendmd5.py:22-27 | the dataset loop, entry by entry in iteration order; `AppendMd5.JoinAnnotates` and `AppendMd5.JoinFailsIff` state its properties |
| AppendMd5.JoinAnnotates | tools/appendmd5.py:22-27 | after the join every visited entry carries its file's sum, and all other entries and keys are as they were |
| AppendMd5.JoinFailsIff | tools/appendmd5.py:24-26 | the join raises exactly when some visited entry's zip has no sum |
| AppendMd5.JoinFailurePersists | tools/appendmd5.py:24-27 | once an entry has raised, the later entries change nothing |
| AppendMd5.Dataset.constructor | tools/appendmd5.py:22-23 | the dataset holds the entries and their iteration order |
| AppendMd5.Dataset.AppendSums | tools/appendmd5.py:24-27 | the loop leaves the joined dataset, or raises with the entries before the failing one already annotated |
| AppendMd5.AppendMd5 | tools/appendmd5.py:10-31 | the whole script: read the sums, then annotate the dataset; `AppendMd5.MissingSumRaises` states when it raises |
| AppendMd5.MissingSumRaises | tools/appendmd5.py:25-31 | a visited dataset entry without a zip, or whose zip is absent from `allsums`, makes the script raise before writing |
| AppendMd5.NoSumLineRaises | tools/appendmd5.py:12-31 | a visited entry whose zip no line of the listing names makes the script raise before writing |
| Srtm3.Record | tools/srtm3.py:30-35 | one link of `process_links`; `Srtm3.RecordKeys` states what it adds |
| Srtm3.Processed | tools/srtm3.py:29-35 | `process_links` over a folder's links; `Srtm3.ProcessedAppend`, `Srtm3.ProcessedUntouched` and `Srtm3.ProcessedLastWins` state its properties |
| Srtm3.ProcessedAll | tools/srtm3.py:38-42 | the folders processed in order; `Srtm3.LaterFoldersUntouched` states what a later folder keeps |
| Srtm3.RecordKeys | tools/srtm3.py:29-35 | a link adds exactly its stem, and only when its extension is `.zip`; other keys keep their entries |
| Srtm3.RecordExample | tools/srtm3.py:31-35 | `N00E010.hgt.zip` is stored under `N00E010.hgt` with its href and full URL |
| Srtm3.OtherLinkIgnored | tools/srtm3.py:33-34 | a parent-folder link leaves the table as it was |
| Srtm3.ProcessedAppend | tools/srtm3.py:29-35 | processing two link lists in turn is processing their concatenation |
| Srtm3.ProcessedUntouched | tools/srtm3.py:35 | a key no link records keeps its old entry, or stays absent |
| Srtm3.ProcessedLastWins | tools/srtm3.py:35 | the entry under a key comes from the last link that records it |
| Srtm3.LaterFoldersUntouched | tools/srtm3.py:38-42 | a later folder cannot disturb a key none of its links records |
| Srtm3.LinkIndex.constructor | tools/srtm3.py:26 | the table starts empty |
| Srtm3.LinkIndex.ProcessLinks | tools/srtm3.py:29-35 | the loop leaves the table the specification function describes |
| Srtm3.LinkIndex.CollectAll | tools/srtm3.py:38-42 | the six folders are processed in order |
| Database.RegistryOf | gmaltcli/database.py:16-28 | the registry the metaclass builds, one key per class; `Database.RegistrySound` states its properties |
| Database.GetManagerClass | gmaltcli/database.py:30-40 | an unknown driver raises "Unknown database driver <driver>" |
| Database.RegistrySound | gmaltcli/database.py:16-28 | every registered class is found under its own type and raster flag, and every key maps to a class with that type and flag |
| Database.GetManagerClassSpec | gmaltcli/database.py:30-40 | lookup succeeds exactly for `postgres`, and returns the class whose raster support matches the request |
| Database.RegistryExamples | gmaltcli/tests/test_database.py:8-17 | `postgres` gives the value or raster manager; `couchdb` raises |
| Database.MinOf | gmaltcli/database.py:262-271 | the minimum is below every element and is one of them |
| Database.MaxOf | gmaltcli/database.py:262-271 | the maximum is above every element and is one of them |
| Database.ValuePrepareParams | gmaltcli/database.py:258-271 | the envelope bounds every corner, and each bound is reached by a corner; the value is passed through |
| Database.RasterPrepareParams | gmaltcli/database.py:317-344 | the raster is the grid's size, its origin is the top-left corner (index 1), its pixel scale is the square size with y negated, no-data is the void value and the default is 0; the envelope's min x and max y are the top-left corner's, its min y and max x the bottom-right corner's (index 3) |
| Database.ValueParamsExample | gmaltcli/tests/test_database.py:122-128 | the value manager's parameters for a sample set of corners |
| Database.RasterParamsExample | gmaltcli/tests/test_database.py:131-144 | the raster manager's parameters for a sample parser |
| Database.EnvelopeIsBoundingBox | gmaltcli/database.py:258-271 | for tile corners, the envelope is the corners' bottom-left and top-right |
| Database.Bound | gmaltcli/database.py:134-135 | the table name is added to the query parameters, and every other parameter is kept |
| Database.PrepareEnvironmentSpec | gmaltcli/database.py:168-182 | `prepare_environment` against the abstract database; `Database.PrepareEnvironmentDecides` and `Database.PrepareEnvironmentTwice` state its properties |
| Database.PrepareParams | gmaltcli/database.py:193-205 | `prepare_params` dispatched to the manager's own override; see `Database.ValuePrepareParams` and `Database.RasterPrepareParams` |
| Database.InsertDataSpec | gmaltcli/database.py:207-225 | `insert_data` against the abstract database; `Database.InsertDataDecides` and `Database.InsertDataIdempotent` state its properties |
| Database.PrepareEnvironmentDecides | gmaltcli/database.py:168-182 | it raises `NotSupportedException` exactly when the database is not compatible; otherwise the table exists afterwards and was created once if it was missing, never if present |
| Database.PrepareEnvironmentTwice | gmaltcli/database.py:168-182 | preparing twice changes nothing more and creates the table at most once in all |
| Database.InsertIfAbsentSpec | gmaltcli/database.py:222-225 | a row is added only under an absent footprint, and existing rows are never changed |
| Database.InsertDataDecides | gmaltcli/database.py:207-225 | a void datum runs no query; any other runs the existence query, then inserts exactly when its footprint is absent |
| Database.InsertDataIdempotent | gmaltcli/database.py:222-225 | inserting the same datum twice leaves the database as once |
| Database.Manager.constructor | gmaltcli/database.py:107-110 | a manager starts unconnected, with no query run |
| Database.Manager.Enter | gmaltcli/database.py:112-115 | entering connects only when not already connected |
| Database.Manager.Exit | gmaltcli/database.py:117-119 | leaving closes an open connection once and keeps it recorded as set |
| Database.Manager.Execute | gmaltcli/database.py:121-151 | a query's answer and effect come from the database; the table name is bound into the parameters, and empty or missing parameters bind only it |
| Database.Manager.IsCompatible | gmaltcli/database.py:184-191 | the answer is whether the manager's format is supported, and the database is unchanged; the raster manager's override at gmaltcli/database.py:309-315 runs its own query |
| Database.Manager.PrepareEnvironment | gmaltcli/database.py:168-182 | the method follows the specification function, its outcome and its queries |
| Database.Manager.InsertData | gmaltcli/database.py:207-225 | the method follows the specification function, its new rows and its queries |
| WorkerEngine.Fill | gmaltcli/worker.py:81-91 | `fill` as a state change; `WorkerEngine.FillEnqueues` states what it enqueues and when it raises |
| WorkerEngine.LegacyFill | hgt2sql/worker.py:64-74 | the older `fill`, whose `xrange` is undefined under Python 3; `WorkerEngine.LegacyFillRejectsLists` states the difference |
| WorkerEngine.GetQueue | gmaltcli/worker.py:167-184 | one `_get_queue` call keeps the pool's shape (as many workers, each with its own record); `WorkerEngine.GetQueueOnce` states its effect; the same code is at hgt2sql/worker.py:150-167 |
| WorkerEngine.Run | gmaltcli/worker.py:152-165 | one thread's `run` keeps the pool's shape; `WorkerEngine.RunEndsOnce`, `WorkerEngine.RunNoFailure` and `WorkerEngine.RunFailsAt` state its effect; the same code is at hgt2sql/worker.py:135-148 |
| WorkerEngine.Step | gmaltcli/worker.py:152-165 | one turn of a thread's loop keeps the pool's shape; a finished thread does nothing more |
| WorkerEngine.Interleave | gmaltcli/worker.py:111-113 | the threads' turns in schedule order keep the pool's shape; `WorkerEngine.InterleaveEndsAtMostOnce` and `WorkerEngine.InterleaveNoFailure` state what they preserve |
| WorkerEngine.Finish | gmaltcli/worker.py:93-100 | `_wait` runs every unfinished thread to its end and keeps the pool's shape; `WorkerEngine.FinishEndsAll` states that all threads end |
| WorkerEngine.Start | gmaltcli/worker.py:102-121 | `start` raises exactly when the stop event is set after the wait; `WorkerEngine.StartPassesWithoutFailure`, `WorkerEngine.StartRaisesOnFailingItem` and `WorkerEngine.StartRaisesOnFailingPop` state when each happens |
| WorkerEngine.FillEnqueues | gmaltcli/worker.py:81-91 | `fill` enqueues a list's items in order or a dict's values in key order, and sets max to the length; a non-empty set raises `TypeError` and leaves the pool as it was |
| WorkerEngine.FillNinetyNine | gmaltcli/test/test_worker.py:92-94 | filling 99 file names queues 99 items and sets max to 99 |
| WorkerEngine.LegacyFillRejectsLists | hgt2sql/worker.py:64-74 | under Python 3 the old `fill` raises `NameError` on any list and leaves the pool unchanged, where the corrected `fill` enqueues it; on every well-formed dict, under either Python, the two `fill`s agree |
| WorkerEngine.GetQueueOnce | gmaltcli/worker.py:167-184 | one item is popped and the counter moves once whether or not `process` raises; a raise sets the stop event; otherwise only this worker records the item; no item is lost; the same code is at hgt2sql/worker.py:150-167 |
| WorkerEngine.AdvancedValue | gmaltcli/worker.py:38-43 | n increments from `counter` reach `counter + n * incr` |
| WorkerEngine.CounterExamples | gmaltcli/test/test_worker.py:20-53 | from 10 by 5 the counter reads 15 then 20; from 0 by 1 it reads n after n increments |
| WorkerEngine.RunEndsOnce | gmaltcli/worker.py:152-165 | `run` ends with one `_on_end` and with an empty queue or a set stop event; with the stop event already set it pops nothing; the same code is at hgt2sql/worker.py:135-148 |
| WorkerEngine.RunNoFailure | gmaltcli/worker.py:158-162 | with no failure one worker processes the whole queue in FIFO order, and the counter moves once per item |
| WorkerEngine.RunFailsAt | gmaltcli/worker.py:174-184 | when item k+1 is the first to raise, the worker records the k before it, leaves the rest queued and sets the stop event |
| WorkerEngine.NinetyNineItems | gmaltcli/test/test_worker.py:133-146 | a good worker processes all 99 items; the error worker processes 79, leaves 19 and stops |
| WorkerEngine.InterleaveEndsAtMostOnce | gmaltcli/worker.py:152-165 | under any interleaving no thread ends twice |
| WorkerEngine.FinishEndsAll | gmaltcli/worker.py:111-114 | after the wait every thread has ended exactly once |
| WorkerEngine.InterleaveNoFailure | gmaltcli/worker.py:152-184 | with no failure, any interleaving keeps the stop event clear and loses no item |
| WorkerEngine.FinishNoFailure | gmaltcli/worker.py:111-114 | with no failure, the wait empties the queue and loses no item |
| WorkerEngine.StartPassesWithoutFailure | gmaltcli/worker.py:102-121 | with no failing item, `start` returns normally under every schedule, the queue ends empty, the workers together processed each item exactly once, and each `_on_end` ran once |
| WorkerEngine.StartRaisesOnFailingItem | gmaltcli/worker.py:102-121 | an item whose `process` always raises makes `start` raise `WorkerPoolException` under every schedule; the same code is at hgt2sql/worker.py:85-104 |
| WorkerEngine.StartRaisesOnFailingPop | gmaltcli/worker.py:102-121 | when the pop handed the counter value reached after k+1 increments is the first whose `process` raises, `start` raises `WorkerPoolException` under every schedule, whichever thread takes that pop; the same code is at hgt2sql/worker.py:85-104 |
| WorkerEngine.FiveWorkers | gmaltcli/test/test_worker.py:86-107 | five fresh workers filled with any list of 99 names finish with all 99 processed; with the error worker, which on names raises only when handed counter 80, `start` raises under every schedule |
| Workers.SafeCounter.constructor | gmaltcli/worker.py:32-36 | the counter starts at `start` with the given max and step |
| Workers.SafeCounter.Increment | gmaltcli/worker.py:38-43 | the counter moves by `incr` and returns the new value with max; max and step are unchanged; the same code is at hgt2sql/worker.py:21-27 |
| Workers.WorkerPool.constructor | gmaltcli/worker.py:71-79 | `size` idle workers, an empty queue, a counter at 0 stepping by 1, and a clear stop event; the same code is at hgt2sql/worker.py:55-62 |
| Workers.WorkerPool.Fill | gmaltcli/worker.py:81-91 | the loop leaves the pool in the state `WorkerEngine.Fill` describes |
| Workers.WorkerPool.LegacyFill | hgt2sql/worker.py:64-74 | the old `fill` leaves the pool in the state `WorkerEngine.LegacyFill` describes |
| Workers.WorkerPool.GetQueue | gmaltcli/worker.py:167-184 | one `_get_queue` call leaves the state `WorkerEngine.GetQueue` describes |
| Workers.WorkerPool.Run | gmaltcli/worker.py:152-165 | the loop leaves the state `WorkerEngine.Run` describes; the same code is at hgt2sql/worker.py:135-148 |
| Workers.WorkerPool.Step | gmaltcli/worker.py:158-162 | one turn of a worker's loop |
| Workers.WorkerPool.Start | gmaltcli/worker.py:102-121 | the scheduled turns and then the wait leave the outcome and state `WorkerEngine.Start` describes; the same code is at hgt2sql/worker.py:85-104 |
| ImportWorker.GetIterator | gmaltcli/worker.py:324-337 | `_get_iterator` picks the iterator by mode and size; `ImportWorker.GetIteratorChoice` states the choice |
| ImportWorker.GetIteratorChoice | gmaltcli/worker.py:324-337 | the sample iterator is chosen exactly in raster mode; a configured size is used exactly when it is truthy, otherwise the parser's |
| ImportWorker.GetIteratorFallback | gmaltcli/worker.py:332-337 | sizes `(0, None)` fall back to the parser's 1201 by 1201 |
| ImportWorker.FirstStop | gmaltcli/worker.py:350-353 | the import stops at the first check that sees the stop event |
| ImportWorker.ImportSink.InsertOrUpdate | gmaltcli/worker.py:355 | the manager receives the record after those already sent |
| ImportWorker.ExecuteImport | gmaltcli/worker.py:339-356 | exactly the records before the first stop check reach the manager, in order, and `processed` counts them |

## Left out

- Threads, locks and the blocking `queue.get`. The pool is a pure state machine driven by a schedule of loop turns. A turn is one whole loop iteration, so the race between `queue.empty()` and `queue.get()` is not modelled. `WorkerEngine.GetQueue` therefore requires a non-empty queue.
- `_wait` polls `isAlive`, and `hgt2sql/worker.py:82` polls `threading.active_count()`. The model replaces both with running every unfinished worker to its end.
- `KeyboardInterrupt` handling in `start` is not modelled. It depends on the operating system delivering a signal.
- `process` of the concrete workers is an oracle on the item and the `(counter, max)` pair. It returns whether the call raises. The download and extract workers use the network and the filesystem.
- `ImportWorker.__init__`, `process` and `_import_file` compose the factory, the parser and a database connection. The parser and its iterators in `gmaltcli/hgt.py` are not part of this model, so `ExecuteImport` takes the iterator's records as input.
- ExecuteImport: the stop event is an input sequence saying what each check sees. The percentage logging is left out.
- `insert_or_update` is called by `_execute_import` but no manager defines it. It is modelled as a sink that records its records.
- SQL text, the SQLAlchemy engine, `ManagerFactory` and `Manager.__new__` are left out. The database is an abstract state: whether the table exists, whether the format is supported, and the rows by footprint.
- The command-line front ends (`app.py`, `tools.py`, `run`, `import_hgt_zip_files`) and `setup.py` are left out. They parse arguments, do I/O and start pools.
- `print`, logging and JSON reading and writing are left out. File and page contents are inputs: the bytes of a tile, the `md5sum` lines, and the hrefs of a folder page.
- `random.randint` is replaced by a sequence of draws given as input.
- HgtScan.ExtractCoordinates: `float()` is modelled only for strings of ASCII digits. Python also accepts signs, blanks, decimals and exponents, which never occur in a tile name. Other text fails with the `ValueError` case.
- HgtScan.ImportFile: `hgt2sql/__init__.py:99` and `gmaltcli/__init__.py:44` both open the tile in text mode, and under Python 3 `struct.unpack` on a `str` raises. The model reads bytes, as the binary reader the format requires.
- Database.Manager.Exit: using a manager after `__exit__` is not modelled. The model keeps the connection recorded, so a later `Execute` still succeeds, where SQLAlchemy's closed connection would raise.
- Workers.SafeCounter.Get: reading the counter has no contract beyond returning the field.
- Workers.WorkerPool.Fill: a Python set's iteration order is arbitrary. A set is a sequence of distinct members in the model. Only an empty set can be filled, because indexing a set raises.

## Findings

| source | as written | input that shows it | evidently intended | confidence | as-written member | corrected member |
|---|---|---|---|---|---|---|
| hgt2sql/__init__.py:125-126 (also gmaltcli/__init__.py:70-71) | the longitude is negated when `lat_order == 'W'`, which never holds for a tile name | `N00W010` gives (0.0, 10.0) | test `lng_order`, giving (0.0, -10.0), as the HGT parser does | high, not executed | HgtScan.WestExample | HgtScan.FixedAgreesWithParser |
| hgt2sql/worker.py:70 | `fill` uses `xrange`, which Python 3 does not define | `fill(["N00E010.hgt"])` raises `NameError` and the queue stays empty | iterate over the indices, as `gmaltcli/worker.py:17-22` does with its shim | high, not executed | WorkerEngine.LegacyFillRejectsLists | WorkerEngine.FillEnqueues |

`HgtScan.ExtractCoordinates` is the file-name reader as written. `HgtScan.ExtractOnTileName` and `HgtScan.LongitudeNeverNegated` show what it gets wrong. The import (`HgtScan.ScanResult`, `HgtScan.ImportFile`) uses this reader, as the source does, and `HgtScan.ImportTileFile` proves that it starts western tiles at the wrong longitude. The corrected reader is `HgtScan.ExtractCoordinatesFixed`. `HgtScan.FixedAgreesWithParser` proves that it agrees with the HGT parser, and `HgtScan.ImportTileFileFixed` that the import with it starts at the tile's own coordinates.

`WorkerEngine.LegacyFill` and `Workers.WorkerPool.LegacyFill` model the older `fill` as written. The rest of the pool uses the corrected `fill`.
