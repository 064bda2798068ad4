# S3 → DynamoDB synchronisation of the Lyon open-data archive

The repository archives Lyon open-data feeds as JSON files in an S3 bucket,
one folder per date under a per-dataset prefix. Three batch scripts copy
those files into DynamoDB tables without inserting the same data twice:

- **perturbations** (`ingestion/ingest_s3_dynamodb_perturbations.py`) lists
  every dated folder. It scans the `gid` values already in the table and
  reads every file of every date. From each file it puts the records whose
  `int(gid)` is not yet known.
- **parkings** (`ingestion/ingest_s3_dynamodb_parkings.py`) lists the files
  of the current UTC day only. It scans the `idparking` values already in
  the table and puts the records whose truthy `idparking` is not yet known.
- **traffic** (`ingestion/ingest_s3_dynamodb_traffic_realtime.py`) compares
  the dated folders with the capture dates already in the table
  (`str(timestamp_capture)[:10]`). It ingests each missing date whole, every
  record of every object, with no per-record check.

The model represents the services by the data they hand back:

- **S3 bucket**: the pages `list_objects_v2` returns for each prefix, plus
  the decoded records of each object.
- **DynamoDB scan**: the sequence of scan responses, each with its optional
  `LastEvaluatedKey`.
- **Table writes**: the log of items put.

Each script is an imperative method (listing loops, scan loop, file and date
loops, batch writes). Each method is proved equal to a functional
specification of the whole run, and the properties are proved about that
specification. `sorted` of a set of date names is computed by a selection
sort, proved equal to the unique strictly increasing sequence of the set.
The modules are:

- `Text`: `split("/")[-2]`, `sorted` of a set of strings, `[:10]`, `int()`
  and `str()` of integers.
- `Json`: Python values, truthiness, hashability, `int()`, set keys,
  `to_decimal`.
- `Aws`: the listing loops, the scan loop, `get_object` and the batch writes.
- `Delta`: the filter-and-write file loop shared by perturbations and
  parkings.
- `Perturbations`, `Parkings`, `Traffic`: one module per script.

## Model

| member | source | states |
|---|---|---|
| Json.ToDecimal | ingestion/ingest_s3_dynamodb_perturbations.py:19-27 | the result has the input's shape (same list lengths, same dict keys), every float leaf becomes the Decimal of its `str()` text, every other leaf is unchanged, and no float is left at any depth |
| Json.ToDecimalRecord | ingestion/ingest_s3_dynamodb_parkings.py:25-26 | a record keeps its keys and each field is converted as above |
| Json.ToDecimalKeepsFloatFree | ingestion/ingest_s3_dynamodb_traffic_realtime.py:14-21 | a value with no float is returned unchanged |
| Json.ToDecimalIdempotent | ingestion/ingest_s3_dynamodb_traffic_realtime.py:14-21 | converting twice is converting once |
| Json.ToDecimalKeepsScalarMeaning | ingestion/ingest_s3_dynamodb_perturbations.py:107-108 | conversion changes neither `int()` of a value, nor its truth value, nor its hashability |
| Json.ToDecimalKeepsSetKey | ingestion/ingest_s3_dynamodb_parkings.py:87-88 | for a hashable value other than a float whose `str()` is not a plain integral numeral (fractional, exponent form, `inf`, `nan`), the converted value is the same set member as the original |
| Text.Split | ingestion/ingest_s3_dynamodb_perturbations.py:36 | `split` yields at least one part, and exactly one when the separator does not occur |
| Text.JoinSplit | ingestion/ingest_s3_dynamodb_perturbations.py:36 | joining the parts of a split with the separator gives back the string |
| Text.SplitPartsHaveNoSep | ingestion/ingest_s3_dynamodb_traffic_realtime.py:29 | no part of a split contains the separator |
| Text.SplitAround | ingestion/ingest_s3_dynamodb_traffic_realtime.py:29 | splitting `s + sep + t` is splitting `s`, then splitting `t` |
| Text.FolderName | ingestion/ingest_s3_dynamodb_perturbations.py:36 | `split("/")[-2]` is defined exactly when the prefix contains "/" |
| Text.FolderNameOfCommonPrefix | ingestion/ingest_s3_dynamodb_traffic_realtime.py:29 | for the common prefix `parent/d/` of a folder `d`, the name taken is `d` |
| Text.LessTotal | ingestion/ingest_s3_dynamodb_perturbations.py:39 | the string order `sorted` uses is total on distinct strings (irreflexive, asymmetric and transitive by LessIrreflexive, LessAsymmetric, LessTransitive) |
| Text.LeastUnique | ingestion/ingest_s3_dynamodb_perturbations.py:39 | a set has at most one least element |
| Text.SortedOf | ingestion/ingest_s3_dynamodb_traffic_realtime.py:31 | `sorted(set)` is strictly increasing, has the set's size and holds exactly the set's members |
| Text.Sort | ingestion/ingest_s3_dynamodb_perturbations.py:39 | the selection loop computes `SortedOf` of the set |
| Text.Least | ingestion/ingest_s3_dynamodb_perturbations.py:39 | the loop finds the least element of a non-empty set |
| Text.Take | ingestion/ingest_s3_dynamodb_traffic_realtime.py:47 | `[:10]` is a prefix of the text, of length `min(len, 10)` |
| Text.IntTextRoundTrip | ingestion/ingest_s3_dynamodb_traffic_realtime.py:47 | `int(str(i)) == i`: the `str()` text of an integer timestamp reads back as that integer |
| Aws.ContentsOfMembers | ingestion/ingest_s3_dynamodb_perturbations.py:47-49 | a key is listed exactly when some page holds it, and the listing has as many keys as the pages' Contents |
| Aws.ListKeys | ingestion/ingest_s3_dynamodb_parkings.py:36-38 | the page loop collects every Contents key of every page, in page order |
| Aws.AppendKeys | ingestion/ingest_s3_dynamodb_perturbations.py:48-49 | the inner loop appends one page's keys in order |
| Aws.PrefixFoldersMeaning | ingestion/ingest_s3_dynamodb_perturbations.py:35-38 | one page's folders: the page fails exactly when a prefix has no "/"; otherwise a name is a folder exactly when it is `split("/")[-2]` of a prefix (and is not "" when empty names are dropped) |
| Aws.FoldersOfMeaning | ingestion/ingest_s3_dynamodb_perturbations.py:34-38 | the same over every page of the delimited listing |
| Aws.ListFolders | ingestion/ingest_s3_dynamodb_traffic_realtime.py:27-30 | the nested page/prefix loop computes those folders, raising at the first prefix without "/" |
| Aws.Converted | ingestion/ingest_s3_dynamodb_perturbations.py:106-107 | one item is put per record, in order, each the `to_decimal` of its record |
| Aws.ConvertedAppend | ingestion/ingest_s3_dynamodb_traffic_realtime.py:62-68 | putting two runs of records one after the other is putting them together |
| Aws.PutRecords | ingestion/ingest_s3_dynamodb_traffic_realtime.py:66-68 | the batch loop appends the converted records to the table's write log |
| Aws.WriteLogLength | ingestion/ingest_s3_dynamodb_perturbations.py:105-111 | the write log of a run's batches has as many items as the batches hold records |
| Aws.WriteLogAppend | ingestion/ingest_s3_dynamodb_parkings.py:71-91 | the write log of a run splits at any file: the items of the earlier files' batches come first, then those of the later ones, and the record counts add up |
| Aws.ResponsesEndAtFirstLast | ingestion/ingest_s3_dynamodb_perturbations.py:56-63 | the scan requests the table's responses up to and including the first without LastEvaluatedKey: every earlier one has one, the last does not |
| Aws.ItemsKeysMeaning | ingestion/ingest_s3_dynamodb_parkings.py:46 | one response fails exactly when some item's key raises; otherwise its keys are exactly those its items yield |
| Aws.KeysOfMeaning | ingestion/ingest_s3_dynamodb_perturbations.py:57-63 | over all scanned responses: failure iff some item raises, otherwise the inventory is exactly the union of the items' keys |
| Aws.ScanKeys | ingestion/ingest_s3_dynamodb_parkings.py:44-53 | the scan loop returns the keys of exactly the requested responses, making one call per response when it does not fail |
| Delta.NewRecords | ingestion/ingest_s3_dynamodb_perturbations.py:96-98 | the comprehension fails exactly when some record's key raises; otherwise it keeps record order and selects a record exactly when it has a key not yet in the inventory |
| Delta.NewRecordsAppend | ingestion/ingest_s3_dynamodb_parkings.py:76-78 | the selection of a concatenation is the concatenation of the selections |
| Delta.SameFileDuplicatesBothSelected | ingestion/ingest_s3_dynamodb_perturbations.py:96-108 | the filter runs against the inventory before the file, so two new records of one file with the same key are both selected and both put |
| Delta.NothingNew | ingestion/ingest_s3_dynamodb_parkings.py:76-80 | when every keyed record is already known and none raises, nothing is selected |
| Delta.FileStepCounters | ingestion/ingest_s3_dynamodb_perturbations.py:100-111 | if some record is new, `inserted` grows by the number selected and `skipped` is unchanged, however many records were filtered out; otherwise `skipped` grows by the size of the whole file |
| Delta.WriteBatch | ingestion/ingest_s3_dynamodb_perturbations.py:105-108 | the batch appends the converted records to the log and adds their keys to the inventory |
| Delta.IngestFile | ingestion/ingest_s3_dynamodb_parkings.py:76-91 | one file's filter, skip and write steps compute the file step, and the log stays the write log of the batches |
| Delta.ProcessFiles | ingestion/ingest_s3_dynamodb_parkings.py:71-91 | the file loop computes the fold over the files; its log is the write log of the batches selected so far, including when an exception ends it |
| Delta.KeySetMembers | ingestion/ingest_s3_dynamodb_perturbations.py:108 | the keys a batch adds are exactly the keys of its records |
| Delta.FileStepKeepsConsistent | ingestion/ingest_s3_dynamodb_perturbations.py:96-111 | one file keeps the inventory invariant (inventory = scanned keys + keys written; each written record was new when written; `inserted` = items written), and the inventory only grows |
| Delta.FilesFoldKeepsConsistent | ingestion/ingest_s3_dynamodb_parkings.py:71-91 | the file loop keeps the invariant and only grows the inventory |
| Delta.AllKeysIncludes | ingestion/ingest_s3_dynamodb_parkings.py:88 | the keys of an earlier batch are in the inventory a later file is filtered against |
| Delta.FreshBatchesDisjoint | ingestion/ingest_s3_dynamodb_perturbations.py:96-108 | under the invariant, no written record has a scanned key, and two records of two different files never share a key |
| Delta.FilesFoldSettles | ingestion/ingest_s3_dynamodb_parkings.py:71-91 | a loop that read every file leaves every keyed record of those files with its key in the inventory |
| Delta.FilesFoldIdle | ingestion/ingest_s3_dynamodb_parkings.py:80-83 | over files whose keys are all known, the loop reads every file, writes nothing and inserts nothing |
| Delta.SettledGrows | ingestion/ingest_s3_dynamodb_parkings.py:77 | files settled for an inventory are settled for any larger one |
| Perturbations.ListAllDates | ingestion/ingest_s3_dynamodb_perturbations.py:30-39 | the dates are sorted without repetition and are exactly the non-empty `split("/")[-2]` names of the listed common prefixes; the call raises exactly when a prefix has no "/" |
| Perturbations.ListObjectsForDate | ingestion/ingest_s3_dynamodb_perturbations.py:42-50 | every key under `PREFIX/date/`, in page order, and only those |
| Perturbations.LoadExistingGids | ingestion/ingest_s3_dynamodb_perturbations.py:53-64 | the inventory is exactly `int(gid)` of every scanned item; the call raises exactly when some item has no gid or one `int()` rejects |
| Perturbations.ProcessDates | ingestion/ingest_s3_dynamodb_perturbations.py:84-111 | the date loop skips dates without files and stops at the first exception; its log is the write log of the selected batches |
| Perturbations.IngestS3ToDynamo | ingestion/ingest_s3_dynamodb_perturbations.py:67-117 | the items put and the outcome are those of the run specification: no date folder, the `(inserted, skipped)` report, or the exception that ended the run |
| Perturbations.DatesFoldKeepsConsistent | ingestion/ingest_s3_dynamodb_perturbations.py:84-111 | the date loop keeps the inventory invariant |
| Perturbations.IngestConsistent | ingestion/ingest_s3_dynamodb_perturbations.py:77-111 | a run that loaded the inventory ends in a state satisfying the invariant, and its batches are those of the date loop |
| Perturbations.GidsPutAtMostOnceAcrossFiles | ingestion/ingest_s3_dynamodb_perturbations.py:96-108 | every record put has a gid the scan did not return, and records of two different files never share a gid |
| Perturbations.InsertedCountsPuts | ingestion/ingest_s3_dynamodb_perturbations.py:111-113 | the reported `total_inserted` is the number of items put |
| Perturbations.NoDateFoldersIgnoresTable | ingestion/ingest_s3_dynamodb_perturbations.py:72-75 | with no date folder the run returns before the scan and puts nothing, whatever the table holds |
| Perturbations.EmptyDateSkipped | ingestion/ingest_s3_dynamodb_perturbations.py:86-89 | a date without files changes nothing |
| Perturbations.GidSurvivesConversion | ingestion/ingest_s3_dynamodb_perturbations.py:107-108 | the item put for a record has the record's own gid |
| Perturbations.DatesFoldSettles | ingestion/ingest_s3_dynamodb_perturbations.py:84-108 | after a date loop that raised nothing, every file of every date exists and the gid of each of its records is in the inventory, which only grew |
| Perturbations.DatesFoldIdle | ingestion/ingest_s3_dynamodb_perturbations.py:84-111 | when every gid of every file of every date is already known, the date loop raises nothing, selects nothing, puts nothing and leaves the inventory and `total_inserted` as they were |
| Perturbations.RerunPutsNothing | ingestion/ingest_s3_dynamodb_perturbations.py:67-113 | a second run over the same archive, when the scan returns the first run's inventory and every gid it put, finishes, inserts nothing and puts nothing |
| Parkings.ListObjectsForToday | ingestion/ingest_s3_dynamodb_parkings.py:30-39 | every key under `PREFIX/day/`, in page order, and only those; as many as the pages list |
| Parkings.LoadExistingIds | ingestion/ingest_s3_dynamodb_parkings.py:42-53 | the inventory is exactly the set keys of the `idparking` of every scanned item, falsy ones included; the call raises exactly when an item lacks the field or holds a list or dict |
| Parkings.IngestParkingDataFromS3 | ingestion/ingest_s3_dynamodb_parkings.py:56-97 | the items put and the outcome are those of the run specification: no file today, the report, or the exception that ended the run |
| Parkings.StartConsistent | ingestion/ingest_s3_dynamodb_parkings.py:65-69 | the loop starts in a state satisfying the inventory invariant |
| Parkings.IdsPutAtMostOnceAcrossFiles | ingestion/ingest_s3_dynamodb_parkings.py:76-88 | every record put has a truthy `idparking` the scan did not return, and records of two different files never share an id |
| Parkings.InsertedCountsPuts | ingestion/ingest_s3_dynamodb_parkings.py:91-93 | the reported `total_inserted` is the number of items put |
| Parkings.NoFilesIgnoresTable | ingestion/ingest_s3_dynamodb_parkings.py:60-63 | with no file for the day the run returns before the scan and puts nothing |
| Parkings.RerunPutsNothing | ingestion/ingest_s3_dynamodb_parkings.py:56-93 | a second run over the same day, when the scan returns the first run's inventory and every id it put, finishes, inserts nothing and puts nothing |
| Parkings.IdSurvivesConversion | ingestion/ingest_s3_dynamodb_parkings.py:87-88 | the item put for a selected record is selected by the same id and reads back under that id from a scan, unless the id is a float whose `str()` is not a plain integral numeral (fractional, exponent form, `inf`, `nan`); an unselected record stays unselected |
| Traffic.ListDatePrefixes | ingestion/ingest_s3_dynamodb_traffic_realtime.py:23-31 | the dates are sorted without repetition and are exactly the `split("/")[-2]` names of the listed common prefixes, "" included; the call raises exactly when a prefix has no "/" |
| Traffic.ListObjects | ingestion/ingest_s3_dynamodb_traffic_realtime.py:33-38 | every key under `PREFIX/date/`, in page order, and only those |
| Traffic.LoadExistingDates | ingestion/ingest_s3_dynamodb_traffic_realtime.py:40-57 | the existing dates are exactly the first ten characters of `str(timestamp_capture)` of the scanned items with a truthy timestamp, each at most ten characters long; the loader never raises |
| Traffic.MissingDates | ingestion/ingest_s3_dynamodb_traffic_realtime.py:79 | the missing dates keep the order of the S3 dates and are exactly the S3 dates the table does not hold; sorted input gives sorted output |
| Traffic.ObjectsFoldMeaning | ingestion/ingest_s3_dynamodb_traffic_realtime.py:62-68 | `ingest_date` reads objects in listing order and stops exactly at the first missing one, raising NoSuchKey for it; otherwise it has read every listed key and put every record, as many as the objects hold |
| Traffic.ObjectsFoldContents | ingestion/ingest_s3_dynamodb_traffic_realtime.py:62-68 | `ingest_date` puts exactly the records of the objects it read, in reading order and record order, and every object read before the last one existed, so only the last read can be the missing object that raised |
| Traffic.ListedRecordsAt | ingestion/ingest_s3_dynamodb_traffic_realtime.py:66-68 | record `j` of the object `keys[i]` sits right after the records of the objects listed before it, so the records are put object by object in listing order and record by record within an object |
| Traffic.ListedRecordsAppend | ingestion/ingest_s3_dynamodb_traffic_realtime.py:62-68 | the records of two runs of keys are those of the first run followed by those of the second |
| Traffic.ListedRecordsLength | ingestion/ingest_s3_dynamodb_traffic_realtime.py:62-68 | the listed records are as many as the objects hold |
| Traffic.IngestObjects | ingestion/ingest_s3_dynamodb_traffic_realtime.py:62-69 | the object loop puts the converted records it read and reports the keys read and the exception that ended it |
| Traffic.IngestDate | ingestion/ingest_s3_dynamodb_traffic_realtime.py:59-69 | `ingest_date` over the date's listing, as above |
| Traffic.PutObject | ingestion/ingest_s3_dynamodb_traffic_realtime.py:66-68 | one object's batch appends its converted records after the earlier ones |
| Traffic.DatesFoldMeaning | ingestion/ingest_s3_dynamodb_traffic_realtime.py:86-87 | dates are ingested in order, stopping only at an exception; every object read is listed under an ingested date |
| Traffic.DatesFoldContents | ingestion/ingest_s3_dynamodb_traffic_realtime.py:86-87 | the date loop puts exactly the records of the objects it read, in reading order; without an exception it has read every object listed under every date, date by date |
| Traffic.IngestDates | ingestion/ingest_s3_dynamodb_traffic_realtime.py:86-87 | the date loop computes the fold over the missing dates: items put, dates ingested, objects read, failure |
| Traffic.SyncMissingDates | ingestion/ingest_s3_dynamodb_traffic_realtime.py:71-87 | the items put, dates ingested, objects read and outcome are those of the run specification: up to date, ingested, or crashed with the uncaught exception |
| Traffic.OnlyMissingDatesIngested | ingestion/ingest_s3_dynamodb_traffic_realtime.py:79-87 | every ingested date is an S3 date absent from the table; the ingested dates are a prefix of the missing ones (all of them without a crash), sorted, and every object read lies under one of them |
| Traffic.UpToDateWritesNothing | ingestion/ingest_s3_dynamodb_traffic_realtime.py:81-83 | when every S3 date is in the table, nothing is read or put |
| Traffic.NoneMissing | ingestion/ingest_s3_dynamodb_traffic_realtime.py:79 | dates all held by the table leave no missing date |
| Traffic.RerunUpToDate | ingestion/ingest_s3_dynamodb_traffic_realtime.py:71-87 | after a first run that did not crash, a second run whose scan holds the first scan's dates and the date of every folder the first run ingested finds no missing date, reads nothing and puts nothing |
| Traffic.DatesFoldPutsEveryRecord | ingestion/ingest_s3_dynamodb_traffic_realtime.py:62-68 | without a crash, the date loop puts as many items as the listed objects hold records |
| Traffic.RunPutsRecordsRead | ingestion/ingest_s3_dynamodb_traffic_realtime.py:71-87 | whatever the outcome, the items put are the converted records of the objects read, in reading order; a run that ingested read every object listed under every ingested date |
| Traffic.IngestedRunPutsEveryRecord | ingestion/ingest_s3_dynamodb_traffic_realtime.py:79-87 | a run that ingests without crashing puts, converted, every record of every object listed under the missing dates, in date, listing and record order, and nothing else; their number is the objects' record count |

## Left out

- boto3 clients, pagination tokens, `batch_writer` buffering, chunking and retries are not modelled. A page list stands for `paginate`, and a sequence of responses stands for the table's scans.
- The write log has no table state behind it. What a later scan returns is a parameter, so whether it reflects earlier puts is stated as a lemma hypothesis (Parkings.RerunPutsNothing, Perturbations.RerunPutsNothing).
- Exceptions raised by `put_item`, `get_object` permissions and other `ClientError`s are not modelled. The only `get_object` error modelled is a missing key (NoSuchKey).
- JSON decoding of an object body is not modelled. Each object is given as its list of records, so a body that is not a list of objects is not represented.
- Json.IntOf: `int()` of a string accepts an optionally signed run of ASCII digits only. Surrounding whitespace, underscores and non-ASCII digits are not accepted. A float or Decimal is truncated from its plain decimal text, and exponent forms are refused.
- Json.SetKey: the model identifies integral numbers written in plain decimal notation (`True`, `1`, `1.0`, `Decimal("1.00")`) as Python's `==`/`hash` do. A number written with an exponent (`1e+16`, `Decimal("1E+2")`) is its own key, although Python equates it with the integer it denotes; so are `inf` and `nan`, although Python equates `float("inf")` with `Decimal("Infinity")`. A fractional float is not identified with the Decimal of the same value.
- Json.ToDecimalKeepsSetKey: states nothing for a float whose text is not a plain integral numeral. For an exponent form (`1e+16`) or an infinity (`inf`), Python's `==`/`hash` keep the float and `Decimal(str(f))` one set member, but the model gives them two different keys; for a fractional float the model likewise does not identify the two.
- Parkings.IdSurvivesConversion: states nothing for an `idparking` float whose text is not a plain integral numeral. For an exponent-form or infinite float id, Python finds the scanned Decimal id in the set and a re-run skips the record, whereas in the model the scanned id differs from the selected one, so the model does not promise that such a record is skipped on a re-run.
- Json.ToDecimal: a float is carried by its `str()` text, so `Decimal(str(f))` is the decimal with that text. Float arithmetic and rendering are not modelled.
- Traffic.RerunUpToDate: the second scan holding the date of every ingested folder is a hypothesis, not a consequence of the first run's puts. The script decides that a date is present only from `str(timestamp_capture)[:10]` of the stored items. A folder whose records have no truthy timestamp, or whose timestamps start with another date, is ingested again on every run and its records are put again. The fetch script takes the folder date and the timestamp from two separate clock reads, so this can happen to a file written just after midnight.
- Traffic.CaptureDate: `str()` of a list or dict timestamp is not rendered. Such a timestamp contributes no date instead of the first ten characters of its rendering.
- Parkings: the day comes from `datetime.utcnow()` at `ingestion/ingest_s3_dynamodb_parkings.py:32`. Here it is a parameter of the run.
- Exceptions in perturbations and parkings are caught, printed and end the run. They are modelled as a `Failed` outcome with the items already put kept in the log. Traffic catches nothing, so its exceptions are a `Crashed` outcome.
- `list_s3_objects` in traffic is a generator, so listing and reading interleave. With a listing that does not change during the run this is the same as listing first, which is what the model does.
- A scan is assumed to end: the `Scan` type requires some response without LastEvaluatedKey. A table that never stops paginating is not represented.
- Logging and `print` output, including the counts printed per file, are not modelled.
- `realtime_ingest.py`, `data_retrieval/realtime_perturbations.py`, `data_retrieval/daily_parkings.py` and `analytic/analytics_daily_report.py` are not part of this model. They fetch from the open-data API or report on the tables, and are not part of the synchronisation.
