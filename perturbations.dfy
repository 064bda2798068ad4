/**
 * ingest_s3_dynamodb_perturbations.py: every dated folder under the
 * perturbations prefix is listed, the gids already in the table are scanned,
 * and each file of each date is filtered on `gid` (as an int) and its new
 * records are put into the table.
 */
module Perturbations {
  import opened Wrappers
  import opened Text
  import opened Json
  import opened Aws
  import opened Delta

  const Prefix: string := "perturbations_travaux_temps_reel"

  /** The comprehension's condition: `"gid" in r and int(r["gid"]) ...`; `int` may raise. */
  function GidOf(r: Record): Extracted<int> {
    if "gid" !in r then Absent
    else match IntOf(r["gid"])
      case None => Raises(ConversionError("gid"))
      case Some(g) => Found(g)
  }

  /** `int(item["gid"])` on a scanned item: a missing field raises `KeyError`. */
  function ScannedGid(item: Record): Extracted<int> {
    if "gid" !in item then Raises(KeyError("gid"))
    else match IntOf(item["gid"])
      case None => Raises(ConversionError("gid"))
      case Some(g) => Found(g)
  }

  /** The date list `list_all_dates_in_s3` returns, or the exception it raises. */
  ghost function Dates(b: Bucket): Result<seq<string>, Error> {
    match FoldersOf(FolderListing(b, Prefix), true)
    case Err(e) => Err(e)
    case Ok(folders) => Ok(SortedOf(folders))
  }

  /**
   * `list_all_dates_in_s3`: the sorted, duplicate-free list of the non-empty
   * second-to-last components of every CommonPrefix on every page; a prefix
   * with no "/" makes `split("/")[-2]` raise.
   */
  method ListAllDates(b: Bucket) returns (r: Result<seq<string>, Error>)
    ensures r == Dates(b)
    ensures r.Err? <==>
      exists i, j :: ListedPrefix(FolderListing(b, Prefix), i, j) && '/' !in FolderListing(b, Prefix)[i].commonPrefixes[j]
    ensures r.Ok? ==> StrictlySorted(r.value)
    ensures r.Ok? ==> forall d :: d in r.value <==>
      d != "" && exists i, j :: ListedPrefix(FolderListing(b, Prefix), i, j) && FolderName(FolderListing(b, Prefix)[i].commonPrefixes[j]) == Some(d)
  {
    FoldersOfMeaning(FolderListing(b, Prefix), true);
    var folders := ListFolders(FolderListing(b, Prefix), true);
    if folders.Err? {
      return Err(folders.error);
    }
    var sorted := Sort(folders.value);
    r := Ok(sorted);
  }

  /** `list_s3_objects_for_date`: every Contents key under the date's prefix, pages in order. */
  method ListObjectsForDate(b: Bucket, date: string) returns (keys: seq<string>)
    ensures keys == DateKeys(b, Prefix, date)
    ensures forall k :: k in keys <==>
      exists i :: 0 <= i < |Paginate(b, DatePrefix(Prefix, date))| && k in Paginate(b, DatePrefix(Prefix, date))[i].contents
  {
    ContentsOfMembers(Paginate(b, DatePrefix(Prefix, date)));
    keys := ListKeys(Paginate(b, DatePrefix(Prefix, date)));
  }

  /**
   * `load_existing_gids`: the union of `int(gid)` over the items of every
   * response the scan loop requests; it stops at the first response without
   * LastEvaluatedKey, and an item without a convertible gid raises.
   */
  method LoadExistingGids(scan: Scan) returns (r: Result<set<int>, Error>)
    ensures r == KeysOf(Responses(scan), ScannedGid)
    ensures r.Err? <==> exists i, j :: ScannedItem(Responses(scan), i, j) && ScannedGid(Responses(scan)[i].items[j]).Raises?
    ensures r.Ok? ==> forall g :: g in r.value <==>
      exists i, j :: ScannedItem(Responses(scan), i, j) &&
        "gid" in Responses(scan)[i].items[j] && IntOf(Responses(scan)[i].items[j]["gid"]) == Some(g)
  {
    KeysOfMeaning(Responses(scan), ScannedGid);
    var calls;
    r, calls := ScanKeys(scan, ScannedGid);
  }

  /**
   * `for date_prefix in s3_dates:` a date with no objects is skipped;
   * otherwise its files are processed, and an exception ends the run.
   */
  function DatesFold(b: Bucket, t: Tally<int>, dates: seq<string>): Progress<int>
    decreases |dates|
  {
    if dates == [] then Progress(t, None)
    else if DateKeys(b, Prefix, dates[0]) == [] then DatesFold(b, t, dates[1..])
    else
      var p := FilesFold(b, t, DateKeys(b, Prefix, dates[0]), GidOf);
      if p.failure.Some? then p else DatesFold(b, p.tally, dates[1..])
  }

  /** How a run ends: the early return, the final report, or the exception that was printed. */
  datatype Outcome = NoDateFolders | Finished(inserted: nat, skipped: nat) | Failed(error: Error)

  /** A run: the batches put into the table, file by file, and how it ended. */
  datatype Run = Run(batches: seq<seq<Record>>, outcome: Outcome)

  /** `ingest_s3_to_dynamo`, as a function of the bucket and the table's scan responses. */
  ghost function Ingest(b: Bucket, scan: Scan): Run {
    match Dates(b)
    case Err(e) => Run([], Failed(e))
    case Ok(dates) =>
      if dates == [] then Run([], NoDateFolders)
      else match KeysOf(Responses(scan), ScannedGid)
        case Err(e) => Run([], Failed(e))
        case Ok(inventory) =>
          var p := DatesFold(b, Tally(inventory, 0, 0, []), dates);
          Run(p.tally.batches, if p.failure.Some? then Failed(p.failure.value) else Finished(p.tally.inserted, p.tally.skipped))
  }

  /** The date loop: its state after the dates, and the items it put, in order. */
  method ProcessDates(b: Bucket, t: Tally<int>, log: seq<Record>, dates: seq<string>)
    returns (p: Progress<int>, log': seq<Record>)
    requires log == WriteLog(t.batches)
    ensures p == DatesFold(b, t, dates)
    ensures log' == WriteLog(p.tally.batches)
  {
    var cur := t;
    log' := log;
    assert dates[0..] == dates;
    for i := 0 to |dates|
      invariant DatesFold(b, t, dates) == DatesFold(b, cur, dates[i..])
      invariant log' == WriteLog(cur.batches)
    {
      assert dates[i..][1..] == dates[i + 1..];
      var keys := ListObjectsForDate(b, dates[i]);
      if keys == [] {
        continue;
      }
      var step;
      step, log' := ProcessFiles(b, cur, log', keys, GidOf);
      if step.failure.Some? {
        return step, log';
      }
      cur := step.tally;
    }
    p := Progress(cur, None);
  }

  /** `ingest_s3_to_dynamo`: the items it puts, in order, and how it ends. */
  method IngestS3ToDynamo(b: Bucket, scan: Scan) returns (log: seq<Record>, outcome: Outcome)
    ensures log == WriteLog(Ingest(b, scan).batches)
    ensures outcome == Ingest(b, scan).outcome
  {
    var dates := ListAllDates(b);
    if dates.Err? {
      return [], Failed(dates.error);
    }
    if dates.value == [] {
      return [], NoDateFolders;
    }
    var inventory := LoadExistingGids(scan);
    if inventory.Err? {
      return [], Failed(inventory.error);
    }
    var p;
    p, log := ProcessDates(b, Tally(inventory.value, 0, 0, []), [], dates.value);
    outcome := if p.failure.Some? then Failed(p.failure.value) else Finished(p.tally.inserted, p.tally.skipped);
  }

  // ---------------------------------------------------------------------
  // Properties of a run

  lemma {:induction false} DatesFoldKeepsConsistent(b: Bucket, init: set<int>, t: Tally<int>, dates: seq<string>)
    requires Consistent(init, t, GidOf)
    ensures Consistent(init, DatesFold(b, t, dates).tally, GidOf)
    decreases |dates|
  {
    if dates != [] {
      var keys := DateKeys(b, Prefix, dates[0]);
      if keys == [] {
        DatesFoldKeepsConsistent(b, init, t, dates[1..]);
      } else {
        var p := FilesFold(b, t, keys, GidOf);
        FilesFoldKeepsConsistent(b, init, t, keys, GidOf);
        if p.failure.None? {
          DatesFoldKeepsConsistent(b, init, p.tally, dates[1..]);
        }
      }
    }
  }

  /** The run's final tally, when the inventory was loaded, satisfies the inventory invariant. */
  lemma IngestConsistent(b: Bucket, scan: Scan)
    requires Dates(b).Ok? && KeysOf(Responses(scan), ScannedGid).Ok?
    ensures Dates(b).value != [] ==>
      Consistent(KeysOf(Responses(scan), ScannedGid).value,
        DatesFold(b, Tally(KeysOf(Responses(scan), ScannedGid).value, 0, 0, []), Dates(b).value).tally, GidOf)
    ensures Dates(b).value != [] ==>
      Ingest(b, scan).batches == DatesFold(b, Tally(KeysOf(Responses(scan), ScannedGid).value, 0, 0, []), Dates(b).value).tally.batches
  {
    var init := KeysOf(Responses(scan), ScannedGid).value;
    assert AllKeys([], GidOf) == {};
    assert Consistent(init, Tally(init, 0, 0, []), GidOf);
    DatesFoldKeepsConsistent(b, init, Tally(init, 0, 0, []), Dates(b).value);
  }

  /**
   * No gid is put twice across files in one run: every put record has a gid
   * that the scan did not return, and records of two different files never
   * share a gid.
   */
  lemma GidsPutAtMostOnceAcrossFiles(b: Bucket, scan: Scan)
    ensures forall i, j :: 0 <= i < |Ingest(b, scan).batches| && 0 <= j < |Ingest(b, scan).batches[i]| ==>
      && GidOf(Ingest(b, scan).batches[i][j]).Found?
      && KeysOf(Responses(scan), ScannedGid).Ok?
      && GidOf(Ingest(b, scan).batches[i][j]).key !in KeysOf(Responses(scan), ScannedGid).value
    ensures forall i1, j1, i2, j2 ::
      && 0 <= i1 < i2 < |Ingest(b, scan).batches|
      && 0 <= j1 < |Ingest(b, scan).batches[i1]|
      && 0 <= j2 < |Ingest(b, scan).batches[i2]|
      ==> GidOf(Ingest(b, scan).batches[i1][j1]) != GidOf(Ingest(b, scan).batches[i2][j2])
  {
    if Dates(b).Ok? && Dates(b).value != [] && KeysOf(Responses(scan), ScannedGid).Ok? {
      var init := KeysOf(Responses(scan), ScannedGid).value;
      var batches := Ingest(b, scan).batches;
      assert batches == DatesFold(b, Tally(init, 0, 0, []), Dates(b).value).tally.batches;
      IngestConsistent(b, scan);
      FreshBatchesDisjoint(init, batches, GidOf);
      forall i, j | 0 <= i < |batches| && 0 <= j < |batches[i]|
        ensures GidOf(batches[i][j]).Found? && GidOf(batches[i][j]).key !in init
      {
      }
    } else {
      assert Ingest(b, scan).batches == [];
    }
  }

  /** The reported `total_inserted` is the number of items put. */
  lemma InsertedCountsPuts(b: Bucket, scan: Scan)
    ensures Ingest(b, scan).outcome.Finished? ==>
      Ingest(b, scan).outcome.inserted == |WriteLog(Ingest(b, scan).batches)|
  {
    if Ingest(b, scan).outcome.Finished? {
      IngestConsistent(b, scan);
      WriteLogLength(Ingest(b, scan).batches);
    }
  }

  // ---------------------------------------------------------------------
  // Re-running over the same dates

  /** Every file of every date exists and its records' gids convert and are in `inventory`. */
  ghost predicate DatesSettled(b: Bucket, dates: seq<string>, inventory: set<int>) {
    forall i :: 0 <= i < |dates| ==> Settled(b, DateKeys(b, Prefix, dates[i]), inventory, GidOf)
  }

  /** After a date loop that ended without an exception, every gid of every file of every date is in the inventory. */
  lemma {:induction false} DatesFoldSettles(b: Bucket, t: Tally<int>, dates: seq<string>)
    requires DatesFold(b, t, dates).failure.None?
    ensures DatesSettled(b, dates, DatesFold(b, t, dates).tally.existing)
    ensures t.existing <= DatesFold(b, t, dates).tally.existing
    decreases |dates|
  {
    if dates != [] {
      var keys := DateKeys(b, Prefix, dates[0]);
      var next := if keys == [] then t else FilesFold(b, t, keys, GidOf).tally;
      if keys != [] {
        FilesFoldSettles(b, t, keys, GidOf);
      }
      assert DatesFold(b, t, dates) == DatesFold(b, next, dates[1..]);
      DatesFoldSettles(b, next, dates[1..]);
      var final := DatesFold(b, t, dates).tally.existing;
      SettledGrows(b, keys, next.existing, final, GidOf);
      forall i | 0 <= i < |dates| ensures Settled(b, DateKeys(b, Prefix, dates[i]), final, GidOf) {
        if i > 0 { assert dates[1..][i - 1] == dates[i]; }
      }
    }
  }

  /** Over settled dates the date loop selects nothing: it ends without an exception, writes nothing and inserts nothing. */
  lemma {:induction false} DatesFoldIdle(b: Bucket, t: Tally<int>, dates: seq<string>)
    requires DatesSettled(b, dates, t.existing)
    ensures DatesFold(b, t, dates).failure.None?
    ensures DatesFold(b, t, dates).tally.existing == t.existing
    ensures DatesFold(b, t, dates).tally.inserted == t.inserted
    ensures WriteLog(DatesFold(b, t, dates).tally.batches) == WriteLog(t.batches)
    decreases |dates|
  {
    if dates != [] {
      var keys := DateKeys(b, Prefix, dates[0]);
      assert Settled(b, keys, t.existing, GidOf);
      var next := if keys == [] then t else FilesFold(b, t, keys, GidOf).tally;
      if keys != [] {
        FilesFoldIdle(b, t, keys, GidOf);
      }
      assert DatesSettled(b, dates[1..], next.existing) by {
        forall i | 0 <= i < |dates[1..]| ensures Settled(b, DateKeys(b, Prefix, dates[1..][i]), next.existing, GidOf) {
          assert dates[1..][i] == dates[i + 1];
        }
      }
      DatesFoldIdle(b, next, dates[1..]);
    }
  }

  /**
   * Re-running once the table's scan returns at least the first run's
   * inventory and every gid it put reads every file again, puts nothing and
   * reports no insertion.
   */
  lemma RerunPutsNothing(b: Bucket, scan1: Scan, scan2: Scan)
    requires Ingest(b, scan1).outcome.Finished?
    requires KeysOf(Responses(scan1), ScannedGid).Ok? && KeysOf(Responses(scan2), ScannedGid).Ok?
    requires KeysOf(Responses(scan1), ScannedGid).value + AllKeys(Ingest(b, scan1).batches, GidOf)
      <= KeysOf(Responses(scan2), ScannedGid).value
    ensures Ingest(b, scan2).outcome.Finished?
    ensures Ingest(b, scan2).outcome.inserted == 0
    ensures WriteLog(Ingest(b, scan2).batches) == []
  {
    var dates := Dates(b).value;
    var init := KeysOf(Responses(scan1), ScannedGid).value;
    var later := KeysOf(Responses(scan2), ScannedGid).value;
    var first := DatesFold(b, Tally(init, 0, 0, []), dates);
    IngestConsistent(b, scan1);
    DatesFoldSettles(b, Tally(init, 0, 0, []), dates);
    assert first.tally.existing <= later;
    forall i | 0 <= i < |dates| ensures Settled(b, DateKeys(b, Prefix, dates[i]), later, GidOf) {
      SettledGrows(b, DateKeys(b, Prefix, dates[i]), first.tally.existing, later, GidOf);
    }
    DatesFoldIdle(b, Tally(later, 0, 0, []), dates);
  }

  /** With no date folder the run returns before the scan: whatever the table holds, nothing is put. */
  lemma NoDateFoldersIgnoresTable(b: Bucket, scan1: Scan, scan2: Scan)
    requires FoldersOf(FolderListing(b, Prefix), true) == Ok({})
    ensures Ingest(b, scan1) == Ingest(b, scan2) == Run([], NoDateFolders)
  {
    assert |SortedOf({})| == 0;
  }

  /** A date with no objects is skipped: it changes nothing. */
  lemma EmptyDateSkipped(b: Bucket, t: Tally<int>, date: string, dates: seq<string>)
    requires DateKeys(b, Prefix, date) == []
    ensures DatesFold(b, t, [date] + dates) == DatesFold(b, t, dates)
  {
    assert ([date] + dates)[1..] == dates;
  }

  /** The item put for a record has the record's own gid. */
  lemma GidSurvivesConversion(r: Record)
    ensures GidOf(ToDecimalRecord(r)) == GidOf(r)
  {
    if "gid" in r {
      ToDecimalKeepsScalarMeaning(r["gid"]);
    }
  }
}
