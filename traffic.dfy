/**
 * ingest_s3_dynamodb_traffic_realtime.py: the dated folders in S3 are
 * compared with the capture dates already in the table, and every folder
 * whose date is missing is ingested whole, every record of every object,
 * with no per-record check.
 */
module Traffic {
  import opened Wrappers
  import opened Text
  import opened Json
  import opened Aws
  import opened Delta

  const Prefix: string := "supervision_trafic_temps_reel"

  // ---------------------------------------------------------------------
  // Listing and scanning

  /** The date list `list_date_prefixes` returns, or the exception it raises. */
  ghost function Dates(b: Bucket): Result<seq<string>, Error> {
    match FoldersOf(FolderListing(b, Prefix), false)
    case Err(e) => Err(e)
    case Ok(folders) => Ok(SortedOf(folders))
  }

  /**
   * `list_date_prefixes`: the sorted, duplicate-free list of the
   * second-to-last components of every CommonPrefix on every page. Unlike
   * the perturbations listing, an empty name is kept.
   */
  method ListDatePrefixes(b: Bucket) returns (r: Result<seq<string>, Error>)
    ensures r == Dates(b)
    ensures r.Err? <==>
      exists i, j :: ListedPrefix(FolderListing(b, Prefix), i, j) && '/' !in FolderListing(b, Prefix)[i].commonPrefixes[j]
    ensures r.Ok? ==> StrictlySorted(r.value)
    ensures r.Ok? ==> forall d :: d in r.value <==>
      exists i, j :: ListedPrefix(FolderListing(b, Prefix), i, j) && FolderName(FolderListing(b, Prefix)[i].commonPrefixes[j]) == Some(d)
  {
    FoldersOfMeaning(FolderListing(b, Prefix), false);
    var folders := ListFolders(FolderListing(b, Prefix), false);
    if folders.Err? {
      return Err(folders.error);
    }
    var sorted := Sort(folders.value);
    r := Ok(sorted);
  }

  /** `list_s3_objects`: every Contents key under the date's prefix, pages in order. */
  method ListObjects(b: Bucket, date: string) returns (keys: seq<string>)
    ensures keys == DateKeys(b, Prefix, date)
    ensures forall k :: k in keys <==>
      exists i :: 0 <= i < |Paginate(b, DatePrefix(Prefix, date))| && k in Paginate(b, DatePrefix(Prefix, date))[i].contents
  {
    ContentsOfMembers(Paginate(b, DatePrefix(Prefix, date)));
    keys := ListKeys(Paginate(b, DatePrefix(Prefix, date)));
  }

  /** `ts = item.get("timestamp_capture")`; `if ts: existing.add(str(ts)[:10])`. */
  function CaptureDate(item: Record): Extracted<string> {
    var ts := if "timestamp_capture" in item then item["timestamp_capture"] else Null;
    if !Truthy(ts) then Absent
    else match ScalarText(ts)
      case None => Absent
      case Some(text) => Found(Take(text, 10))
  }

  /** The capture dates of the scanned items; extracting one never raises. */
  function ExistingDates(pages: seq<ScanPage>): set<string> {
    KeysOfMeaning(pages, CaptureDate);
    KeysOf(pages, CaptureDate).value
  }

  /**
   * `load_existing_dates`: the first ten characters of `str(timestamp_capture)`
   * of every scanned item whose timestamp is truthy, over every response up
   * to the first without LastEvaluatedKey.
   */
  method LoadExistingDates(scan: Scan) returns (existing: set<string>)
    ensures existing == ExistingDates(Responses(scan))
    ensures forall d :: d in existing <==>
      exists i, j :: ScannedItem(Responses(scan), i, j) && CaptureDate(Responses(scan)[i].items[j]) == Found(d)
    ensures forall d :: d in existing ==> |d| <= 10
  {
    KeysOfMeaning(Responses(scan), CaptureDate);
    var r, calls := ScanKeys(scan, CaptureDate);
    existing := r.value;
  }

  /** `[d for d in s3_dates if d not in existing_dates]`. */
  function MissingDates(dates: seq<string>, existing: set<string>): (missing: seq<string>)
    ensures IsSubsequence(missing, dates)
    ensures forall d :: d in missing <==> d in dates && d !in existing
    ensures StrictlySorted(dates) ==> StrictlySorted(missing)
    decreases |dates|
  {
    if dates == [] then []
    else
      var tail := dates[1..];
      var rest := MissingDates(tail, existing);
      assert forall d :: d in dates <==> d == dates[0] || d in tail;
      assert StrictlySorted(dates) ==> StrictlySorted(tail) && forall d :: d in tail ==> Less(dates[0], d) by {
        if StrictlySorted(dates) {
          assert forall i, j :: 0 <= i < j < |tail| ==> tail[i] == dates[i + 1] && tail[j] == dates[j + 1];
          assert forall d :: d in tail ==> exists j :: 0 < j < |dates| && dates[j] == d;
        }
      }
      if dates[0] in existing then rest
      else
        assert ([dates[0]] + rest)[1..] == rest;
        assert forall i :: 0 < i < |[dates[0]] + rest| ==> ([dates[0]] + rest)[i] == rest[i - 1];
        [dates[0]] + rest
  }

  // ---------------------------------------------------------------------
  // Reading and writing

  /**
   * What a stretch of the run did: the records it read, in order, the dates
   * passed to `ingest_date`, the object keys passed to `get_object`, and the
   * exception that ended it if one did.
   */
  datatype Trace = Trace(records: seq<Record>, dates: seq<string>, read: seq<string>, failure: Option<Error>)

  /** One stretch followed by another. */
  function Then(a: Trace, c: Trace): Trace {
    Trace(a.records + c.records, a.dates + c.dates, a.read + c.read, c.failure)
  }

  lemma ThenAssociates(a: Trace, c: Trace, e: Trace)
    ensures Then(Then(a, c), e) == Then(a, Then(c, e))
  {
    assert a.records + c.records + e.records == a.records + (c.records + e.records);
    assert a.dates + c.dates + e.dates == a.dates + (c.dates + e.dates);
    assert a.read + c.read + e.read == a.read + (c.read + e.read);
  }

  const Idle: Trace := Trace([], [], [], None)

  /** `for key in list_s3_objects(...)`: read each object in turn; a missing object raises. */
  function ObjectsFold(b: Bucket, keys: seq<string>): Trace
    decreases |keys|
  {
    if keys == [] then Idle
    else match GetObject(b, keys[0])
      case Err(e) => Trace([], [], [keys[0]], Some(e))
      case Ok(records) => Then(Trace(records, [], [keys[0]], None), ObjectsFold(b, keys[1..]))
  }

  /** The number of records of the objects the keys name. */
  function RecordCount(b: Bucket, keys: seq<string>): nat
    decreases |keys|
  {
    if keys == [] then 0
    else (if keys[0] in b.objects then |b.objects[keys[0]]| else 0) + RecordCount(b, keys[1..])
  }

  /**
   * `ingest_date` reads the objects in listing order and stops at the first
   * missing one; when none is missing it has read every object once and put
   * every record of each, duplicates included.
   */
  lemma {:induction false} ObjectsFoldMeaning(b: Bucket, keys: seq<string>)
    ensures ObjectsFold(b, keys).dates == []
    ensures ObjectsFold(b, keys).failure.None? <==> forall k :: k in keys ==> k in b.objects
    ensures ObjectsFold(b, keys).read <= keys
    ensures ObjectsFold(b, keys).failure.None? ==>
      ObjectsFold(b, keys).read == keys && |ObjectsFold(b, keys).records| == RecordCount(b, keys)
    ensures ObjectsFold(b, keys).failure.Some? ==>
      && ObjectsFold(b, keys).read != []
      && ObjectsFold(b, keys).read[|ObjectsFold(b, keys).read| - 1] !in b.objects
      && ObjectsFold(b, keys).failure == Some(NoSuchKey(ObjectsFold(b, keys).read[|ObjectsFold(b, keys).read| - 1]))
    decreases |keys|
  {
    if keys != [] {
      var tail := keys[1..];
      assert forall k :: k in keys <==> k == keys[0] || k in tail;
      ObjectsFoldMeaning(b, tail);
      if keys[0] in b.objects {
        var rest := ObjectsFold(b, tail);
        assert [keys[0]] + rest.read <= [keys[0]] + tail;
        assert [keys[0]] + tail == keys;
        if rest.failure.Some? {
          assert ([keys[0]] + rest.read)[|[keys[0]] + rest.read| - 1] == rest.read[|rest.read| - 1];
        }
      }
    }
  }

  /**
   * The records of the objects among `keys` that the bucket holds: key by
   * key in the given order and, within an object, in record order.
   */
  function ListedRecords(b: Bucket, keys: seq<string>): seq<Record>
    decreases |keys|
  {
    if keys == [] then []
    else (if keys[0] in b.objects then b.objects[keys[0]] else []) + ListedRecords(b, keys[1..])
  }

  lemma {:induction false} ListedRecordsAppend(b: Bucket, a: seq<string>, c: seq<string>)
    ensures ListedRecords(b, a + c) == ListedRecords(b, a) + ListedRecords(b, c)
    decreases |a|
  {
    if a == [] {
      assert a + c == c;
    } else {
      assert (a + c)[0] == a[0];
      assert (a + c)[1..] == a[1..] + c;
      ListedRecordsAppend(b, a[1..], c);
    }
  }

  lemma {:induction false} ListedRecordsLength(b: Bucket, keys: seq<string>)
    ensures |ListedRecords(b, keys)| == RecordCount(b, keys)
    decreases |keys|
  {
    if keys != [] { ListedRecordsLength(b, keys[1..]); }
  }

  /**
   * Record `j` of the object named by `keys[i]` sits in the listed records
   * right after the records of the objects named before it.
   */
  lemma {:induction false} ListedRecordsAt(b: Bucket, keys: seq<string>, i: nat, j: nat)
    requires i < |keys| && keys[i] in b.objects && j < |b.objects[keys[i]]|
    ensures RecordCount(b, keys[..i]) + j < |ListedRecords(b, keys)|
    ensures ListedRecords(b, keys)[RecordCount(b, keys[..i]) + j] == b.objects[keys[i]][j]
    decreases |keys|
  {
    var head := if keys[0] in b.objects then b.objects[keys[0]] else [];
    ListedRecordsLength(b, keys[1..]);
    if i == 0 {
      assert keys[..0] == [];
    } else {
      assert keys[..i][0] == keys[0];
      assert keys[..i][1..] == keys[1..][..i - 1];
      assert RecordCount(b, keys[..i]) == |head| + RecordCount(b, keys[1..][..i - 1]);
      ListedRecordsAt(b, keys[1..], i - 1, j);
    }
  }

  /**
   * What `ingest_date` puts is exactly the records of the objects it read,
   * in reading order, and every object read before the last one existed:
   * only the last read can be the missing object that ends the loop.
   */
  lemma {:induction false} ObjectsFoldContents(b: Bucket, keys: seq<string>)
    ensures ObjectsFold(b, keys).records == ListedRecords(b, ObjectsFold(b, keys).read)
    ensures forall i :: 0 <= i < |ObjectsFold(b, keys).read| - 1 ==> ObjectsFold(b, keys).read[i] in b.objects
    decreases |keys|
  {
    if keys != [] {
      var k := keys[0];
      if k !in b.objects {
        assert ListedRecords(b, [k]) == [] + ListedRecords(b, []);
      } else {
        var rest := ObjectsFold(b, keys[1..]);
        ObjectsFoldContents(b, keys[1..]);
        var read := [k] + rest.read;
        assert read[0] == k && read[1..] == rest.read;
        assert forall i :: 0 < i < |read| ==> read[i] == rest.read[i - 1];
      }
    }
  }

  lemma ThenIdle(a: Trace)
    requires a.failure.None?
    ensures Then(a, Idle) == a
  {
    assert a.records + [] == a.records && a.dates + [] == a.dates && a.read + [] == a.read;
  }

  /** One turn of the object loop, read off the fold. */
  lemma ObjectsStep(b: Bucket, keys: seq<string>, i: nat, done: Trace)
    requires i < |keys|
    requires ObjectsFold(b, keys) == Then(done, ObjectsFold(b, keys[i..]))
    ensures GetObject(b, keys[i]).Err? ==>
      ObjectsFold(b, keys) == Trace(done.records, done.dates, done.read + [keys[i]], Some(GetObject(b, keys[i]).error))
    ensures GetObject(b, keys[i]).Ok? ==>
      ObjectsFold(b, keys) ==
        Then(Then(done, Trace(GetObject(b, keys[i]).value, [], [keys[i]], None)), ObjectsFold(b, keys[i + 1..]))
  {
    assert keys[i..][1..] == keys[i + 1..];
    assert done.records + [] == done.records && done.dates + [] == done.dates;
    if GetObject(b, keys[i]).Ok? {
      ThenAssociates(done, Trace(GetObject(b, keys[i]).value, [], [keys[i]], None), ObjectsFold(b, keys[i + 1..]));
    }
  }

  /** Putting the converted records after the log of the earlier ones. */
  lemma PutAfter(log: seq<Record>, earlier: seq<Record>, records: seq<Record>)
    ensures log + Converted(earlier) + Converted(records) == log + Converted(earlier + records)
  {
    ConvertedAppend(earlier, records);
  }

  /** `with table.batch_writer() as batch:` for one object that was read, after the objects before it. */
  method PutObject(log: seq<Record>, log': seq<Record>, ghost earlier: seq<Record>, records: seq<Record>)
    returns (log'': seq<Record>)
    requires log' == log + Converted(earlier)
    ensures log'' == log + Converted(earlier + records)
  {
    PutAfter(log, earlier, records);
    log'' := PutRecords(log', records);
  }

  /**
   * `ingest_date`: for each listed object, read it and put every record, converted.
   * Returns the write log, the keys read and the exception that ended it if one did.
   */
  method IngestDate(b: Bucket, date: string, log: seq<Record>)
    returns (log': seq<Record>, read: seq<string>, failure: Option<Error>)
    ensures log' == log + Converted(ObjectsFold(b, DateKeys(b, Prefix, date)).records)
    ensures read == ObjectsFold(b, DateKeys(b, Prefix, date)).read
    ensures failure == ObjectsFold(b, DateKeys(b, Prefix, date)).failure
  {
    var keys := ListObjects(b, date);
    log', read, failure := IngestObjects(b, keys, log);
  }

  /** The object loop of `ingest_date` over the listed keys. */
  method IngestObjects(b: Bucket, keys: seq<string>, log: seq<Record>)
    returns (log': seq<Record>, read: seq<string>, failure: Option<Error>)
    ensures log' == log + Converted(ObjectsFold(b, keys).records)
    ensures read == ObjectsFold(b, keys).read
    ensures failure == ObjectsFold(b, keys).failure
  {
    ghost var done := Idle;
    log', read := log, [];
    assert keys[0..] == keys;
    assert Then(Idle, ObjectsFold(b, keys)) == ObjectsFold(b, keys);
    for i := 0 to |keys|
      invariant ObjectsFold(b, keys) == Then(done, ObjectsFold(b, keys[i..]))
      invariant log' == log + Converted(done.records)
      invariant read == done.read && done.failure.None?
    {
      ObjectsStep(b, keys, i, done);
      var got := GetObject(b, keys[i]);
      if got.Err? {
        return log', read + [keys[i]], Some(got.error);
      }
      log' := PutObject(log, log', done.records, got.value);
      read := read + [keys[i]];
      done := Then(done, Trace(got.value, [], [keys[i]], None));
    }
    ThenIdle(done);
    failure := None;
  }

  /** `for d in missing_dates: ingest_date(d)`; an exception ends the run. */
  function DatesFold(b: Bucket, dates: seq<string>): Trace
    decreases |dates|
  {
    if dates == [] then Idle
    else
      var step := ObjectsFold(b, DateKeys(b, Prefix, dates[0])).(dates := [dates[0]]);
      if step.failure.Some? then step else Then(step, DatesFold(b, dates[1..]))
  }

  /**
   * The date loop passes the dates to `ingest_date` in order, stopping only
   * at an exception, and every object it reads is listed under a date it
   * passed.
   */
  lemma {:induction false} DatesFoldMeaning(b: Bucket, dates: seq<string>)
    ensures DatesFold(b, dates).dates <= dates
    ensures DatesFold(b, dates).failure.None? ==> DatesFold(b, dates).dates == dates
    ensures forall k :: k in DatesFold(b, dates).read ==>
      exists d :: d in DatesFold(b, dates).dates && k in DateKeys(b, Prefix, d)
    decreases |dates|
  {
    if dates != [] {
      var all := DatesFold(b, dates);
      var d := dates[0];
      var reading := ObjectsFold(b, DateKeys(b, Prefix, d));
      ObjectsFoldMeaning(b, DateKeys(b, Prefix, d));
      assert forall k :: k in reading.read ==> k in DateKeys(b, Prefix, d);
      if reading.failure.None? {
        var rest := DatesFold(b, dates[1..]);
        DatesFoldMeaning(b, dates[1..]);
        assert all == Then(reading.(dates := [d]), rest);
        assert [d] + rest.dates <= [d] + dates[1..];
        assert [d] + dates[1..] == dates;
        forall k | k in all.read ensures exists e :: e in all.dates && k in DateKeys(b, Prefix, e) {
          if k in reading.read {
            assert d in all.dates && k in DateKeys(b, Prefix, d);
          } else {
            assert k in rest.read;
            var e :| e in rest.dates && k in DateKeys(b, Prefix, e);
            assert e in all.dates;
          }
        }
      } else {
        assert all == reading.(dates := [d]);
        forall k | k in all.read ensures exists e :: e in all.dates && k in DateKeys(b, Prefix, e) {
          assert d in all.dates && k in DateKeys(b, Prefix, d);
        }
      }
    }
  }

  /** Every object key listed under the dates, date by date in the given order. */
  function DatesKeys(b: Bucket, dates: seq<string>): seq<string>
    decreases |dates|
  {
    if dates == [] then [] else DateKeys(b, Prefix, dates[0]) + DatesKeys(b, dates[1..])
  }

  /**
   * The date loop puts exactly the records of the objects it read, in
   * reading order; without an exception it has read every object listed
   * under every date, date by date.
   */
  lemma {:induction false} DatesFoldContents(b: Bucket, dates: seq<string>)
    ensures DatesFold(b, dates).records == ListedRecords(b, DatesFold(b, dates).read)
    ensures DatesFold(b, dates).failure.None? ==> DatesFold(b, dates).read == DatesKeys(b, dates)
    decreases |dates|
  {
    if dates != [] {
      var keys := DateKeys(b, Prefix, dates[0]);
      ObjectsFoldContents(b, keys);
      ObjectsFoldMeaning(b, keys);
      var step := ObjectsFold(b, keys);
      if step.failure.None? {
        DatesFoldContents(b, dates[1..]);
        ListedRecordsAppend(b, step.read, DatesFold(b, dates[1..]).read);
      }
    }
  }

  // ---------------------------------------------------------------------
  // The run

  /** How a run ends: nothing missing, every missing date ingested, or an uncaught exception. */
  datatype Outcome = UpToDate | Ingested | Crashed(error: Error)

  /** A run: the items put, in order, the dates ingested, the objects read, and how it ended. */
  datatype Run = Run(log: seq<Record>, ingested: seq<string>, read: seq<string>, outcome: Outcome)

  /** `main`, as a function of the bucket and the table's scan responses. */
  ghost function Sync(b: Bucket, scan: Scan): Run {
    match Dates(b)
    case Err(e) => Run([], [], [], Crashed(e))
    case Ok(s3Dates) =>
      var missing := MissingDates(s3Dates, ExistingDates(Responses(scan)));
      if missing == [] then Run([], [], [], UpToDate)
      else
        var t := DatesFold(b, missing);
        Run(Converted(t.records), t.dates, t.read, if t.failure.Some? then Crashed(t.failure.value) else Ingested)
  }

  /** The date loop of `main`. */
  method IngestDates(b: Bucket, dates: seq<string>)
    returns (log: seq<Record>, ingested: seq<string>, read: seq<string>, failure: Option<Error>)
    ensures log == Converted(DatesFold(b, dates).records)
    ensures ingested == DatesFold(b, dates).dates
    ensures read == DatesFold(b, dates).read
    ensures failure == DatesFold(b, dates).failure
  {
    ghost var done := Idle;
    log, ingested, read := [], [], [];
    assert dates[0..] == dates;
    assert Then(Idle, DatesFold(b, dates)) == DatesFold(b, dates);
    for i := 0 to |dates|
      invariant DatesFold(b, dates) == Then(done, DatesFold(b, dates[i..]))
      invariant log == Converted(done.records)
      invariant ingested == done.dates && read == done.read
    {
      assert dates[i..][1..] == dates[i + 1..];
      var before := log;
      var dateRead, f;
      log, dateRead, f := IngestDate(b, dates[i], log);
      ConvertedAppend(done.records, ObjectsFold(b, DateKeys(b, Prefix, dates[i])).records);
      var step := ObjectsFold(b, DateKeys(b, Prefix, dates[i])).(dates := [dates[i]]);
      if f.Some? {
        return log, ingested + [dates[i]], read + dateRead, f;
      }
      ThenAssociates(done, step, DatesFold(b, dates[i + 1..]));
      ingested := ingested + [dates[i]];
      read := read + dateRead;
      done := Then(done, step);
    }
    assert done.records + [] == done.records && done.dates + [] == done.dates && done.read + [] == done.read;
    failure := None;
  }

  /** `main`: the items it puts, the dates it ingests, the objects it reads, and how it ends. */
  method SyncMissingDates(b: Bucket, scan: Scan)
    returns (log: seq<Record>, ingested: seq<string>, read: seq<string>, outcome: Outcome)
    ensures Run(log, ingested, read, outcome) == Sync(b, scan)
  {
    var s3Dates := ListDatePrefixes(b);
    if s3Dates.Err? {
      return [], [], [], Crashed(s3Dates.error);
    }
    var existing := LoadExistingDates(scan);
    var missing := MissingDates(s3Dates.value, existing);
    if missing == [] {
      return [], [], [], UpToDate;
    }
    var failure;
    log, ingested, read, failure := IngestDates(b, missing);
    outcome := if failure.Some? then Crashed(failure.value) else Ingested;
  }

  // ---------------------------------------------------------------------
  // Properties of a run

  /**
   * Only missing dates are ingested: every ingested date is an S3 date the
   * table did not hold, they come in sorted order without repetition, they
   * are all the missing dates unless the run crashed, and every object read
   * is listed under one of them, so a date the table holds is never listed
   * or read.
   */
  lemma OnlyMissingDatesIngested(b: Bucket, scan: Scan)
    requires Dates(b).Ok?
    ensures Sync(b, scan).ingested <= MissingDates(Dates(b).value, ExistingDates(Responses(scan)))
    ensures Sync(b, scan).outcome == Ingested ==>
      Sync(b, scan).ingested == MissingDates(Dates(b).value, ExistingDates(Responses(scan)))
    ensures forall d :: d in Sync(b, scan).ingested ==> d in Dates(b).value && d !in ExistingDates(Responses(scan))
    ensures StrictlySorted(Sync(b, scan).ingested)
    ensures forall k :: k in Sync(b, scan).read ==>
      exists d :: d in Sync(b, scan).ingested && k in DateKeys(b, Prefix, d)
  {
    var missing := MissingDates(Dates(b).value, ExistingDates(Responses(scan)));
    if missing != [] {
      DatesFoldMeaning(b, missing);
      var ingested := Sync(b, scan).ingested;
      assert forall i :: 0 <= i < |ingested| ==> ingested[i] == missing[i];
    }
  }

  /** With no missing date nothing is read and nothing is put. */
  lemma UpToDateWritesNothing(b: Bucket, scan: Scan)
    requires Dates(b).Ok?
    requires forall d :: d in Dates(b).value ==> d in ExistingDates(Responses(scan))
    ensures Sync(b, scan) == Run([], [], [], UpToDate)
  {
    NoneMissing(Dates(b).value, ExistingDates(Responses(scan)));
  }

  /**
   * Re-running once the table's scan returns at least the first run's
   * capture dates and the date of every folder that run ingested finds no
   * missing date: it reads nothing and puts nothing. The hypothesis on the
   * second scan is what the table must hold, not what the first run's puts
   * guarantee: a date counts as present only through `str(ts)[:10]` of some
   * stored timestamp.
   */
  lemma RerunUpToDate(b: Bucket, scan1: Scan, scan2: Scan)
    requires !Sync(b, scan1).outcome.Crashed?
    requires ExistingDates(Responses(scan1)) <= ExistingDates(Responses(scan2))
    requires forall d :: d in Sync(b, scan1).ingested ==> d in ExistingDates(Responses(scan2))
    ensures Sync(b, scan2) == Run([], [], [], UpToDate)
  {
    var missing := MissingDates(Dates(b).value, ExistingDates(Responses(scan1)));
    OnlyMissingDatesIngested(b, scan1);
    forall d | d in Dates(b).value ensures d in ExistingDates(Responses(scan2)) {
      if d !in ExistingDates(Responses(scan1)) {
        assert d in missing;
        assert d in Sync(b, scan1).ingested;
      }
    }
    UpToDateWritesNothing(b, scan2);
  }

  lemma {:induction false} NoneMissing(dates: seq<string>, existing: set<string>)
    requires forall d :: d in dates ==> d in existing
    ensures MissingDates(dates, existing) == []
    decreases |dates|
  {
    if dates != [] {
      assert forall d :: d in dates[1..] ==> d in dates;
      NoneMissing(dates[1..], existing);
    }
  }

  /**
   * A run that ingests without a crash puts every record of every object
   * under each missing date, with no per-record check: the number of items
   * put is the number of records those objects hold.
   */
  lemma {:induction false} DatesFoldPutsEveryRecord(b: Bucket, dates: seq<string>)
    requires DatesFold(b, dates).failure.None?
    ensures |DatesFold(b, dates).records| == DatesRecordCount(b, dates)
    decreases |dates|
  {
    if dates != [] {
      ObjectsFoldMeaning(b, DateKeys(b, Prefix, dates[0]));
      DatesFoldPutsEveryRecord(b, dates[1..]);
    }
  }

  /** The number of records of the objects listed under the dates. */
  function DatesRecordCount(b: Bucket, dates: seq<string>): nat
    decreases |dates|
  {
    if dates == [] then 0 else RecordCount(b, DateKeys(b, Prefix, dates[0])) + DatesRecordCount(b, dates[1..])
  }

  /**
   * Whatever the outcome, the items put are the converted records of the
   * objects read, in reading order and record order; a run that ingested
   * without a crash read every object listed under every missing date.
   */
  lemma RunPutsRecordsRead(b: Bucket, scan: Scan)
    ensures Sync(b, scan).log == Converted(ListedRecords(b, Sync(b, scan).read))
    ensures Sync(b, scan).outcome == Ingested ==> Sync(b, scan).read == DatesKeys(b, Sync(b, scan).ingested)
  {
    if Dates(b).Ok? {
      var missing := MissingDates(Dates(b).value, ExistingDates(Responses(scan)));
      if missing != [] {
        DatesFoldContents(b, missing);
        DatesFoldMeaning(b, missing);
      }
    }
  }

  /**
   * A run that ingests without a crash puts, converted, every record of
   * every object listed under the missing dates, date by date, object by
   * object and record by record, and nothing else.
   */
  lemma IngestedRunPutsEveryRecord(b: Bucket, scan: Scan)
    requires Dates(b).Ok? && Sync(b, scan).outcome == Ingested
    ensures Sync(b, scan).log == Converted(ListedRecords(b, DatesKeys(b, Sync(b, scan).ingested)))
    ensures |Sync(b, scan).log| == DatesRecordCount(b, Sync(b, scan).ingested)
  {
    RunPutsRecordsRead(b, scan);
    var missing := MissingDates(Dates(b).value, ExistingDates(Responses(scan)));
    DatesFoldMeaning(b, missing);
    DatesFoldPutsEveryRecord(b, missing);
  }
}
