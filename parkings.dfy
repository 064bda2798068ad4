/**
 * ingest_s3_dynamodb_parkings.py: the files of one day are listed, the
 * `idparking` values already in the table are scanned, and each file is
 * filtered on a truthy `idparking` and its new records are put into the
 * table. The day, which the script takes from the clock, is a parameter.
 */
module Parkings {
  import opened Wrappers
  import opened Json
  import opened Aws
  import opened Delta

  const Prefix: string := "disponibilites_parkings_journalier"

  /**
   * The comprehension's condition: `r.get("idparking") and r["idparking"] not in existing_ids`.
   * A missing or falsy id is never selected; a truthy list or dict cannot be
   * looked up in a set and raises. The set compares ids by their set key.
   */
  function IdOf(r: Record): Extracted<Value> {
    if "idparking" !in r || !Truthy(r["idparking"]) then Absent
    else if !Hashable(r["idparking"]) then Raises(UnhashableKey("idparking"))
    else Found(SetKey(r["idparking"]))
  }

  /** `item["idparking"]` on a scanned item, added to a set: no truthiness test here. */
  function ScannedId(item: Record): Extracted<Value> {
    if "idparking" !in item then Raises(KeyError("idparking"))
    else if !Hashable(item["idparking"]) then Raises(UnhashableKey("idparking"))
    else Found(SetKey(item["idparking"]))
  }

  /** `list_s3_objects_for_today`: every Contents key under the day's prefix, pages in order. */
  method ListObjectsForToday(b: Bucket, date: string) returns (keys: seq<string>)
    ensures keys == DateKeys(b, Prefix, date)
    ensures |keys| == PagesLength(Paginate(b, DatePrefix(Prefix, date)))
    ensures forall k :: k in keys <==>
      exists i :: 0 <= i < |Paginate(b, DatePrefix(Prefix, date))| && k in Paginate(b, DatePrefix(Prefix, date))[i].contents
  {
    ContentsOfMembers(Paginate(b, DatePrefix(Prefix, date)));
    keys := ListKeys(Paginate(b, DatePrefix(Prefix, date)));
  }

  /**
   * `load_existing_ids`: the union of `idparking` over the items of every
   * response the scan loop requests, up to the first response without
   * LastEvaluatedKey; falsy ids are kept.
   */
  method LoadExistingIds(scan: Scan) returns (r: Result<set<Value>, Error>)
    ensures r == KeysOf(Responses(scan), ScannedId)
    ensures r.Err? <==> exists i, j :: ScannedItem(Responses(scan), i, j) && ScannedId(Responses(scan)[i].items[j]).Raises?
    ensures r.Ok? ==> forall v :: v in r.value <==>
      exists i, j :: ScannedItem(Responses(scan), i, j) &&
        "idparking" in Responses(scan)[i].items[j] && SetKey(Responses(scan)[i].items[j]["idparking"]) == v
  {
    KeysOfMeaning(Responses(scan), ScannedId);
    var calls;
    r, calls := ScanKeys(scan, ScannedId);
  }

  /** How a run ends: the early return, the final report, or the exception that was printed. */
  datatype Outcome = NoFilesToday | Finished(inserted: nat, skipped: nat) | Failed(error: Error)

  /** A run: the batches put into the table, file by file, and how it ended. */
  datatype Run = Run(batches: seq<seq<Record>>, outcome: Outcome)

  /** `ingest_parking_data_from_s3` for the given day, as a function of the bucket and the scan responses. */
  function Ingest(b: Bucket, date: string, scan: Scan): Run {
    var keys := DateKeys(b, Prefix, date);
    if keys == [] then Run([], NoFilesToday)
    else match KeysOf(Responses(scan), ScannedId)
      case Err(e) => Run([], Failed(e))
      case Ok(inventory) =>
        var p := FilesFold(b, Tally(inventory, 0, 0, []), keys, IdOf);
        Run(p.tally.batches, if p.failure.Some? then Failed(p.failure.value) else Finished(p.tally.inserted, p.tally.skipped))
  }

  /** `ingest_parking_data_from_s3`: the items it puts, in order, and how it ends. */
  method IngestParkingDataFromS3(b: Bucket, date: string, scan: Scan) returns (log: seq<Record>, outcome: Outcome)
    ensures log == WriteLog(Ingest(b, date, scan).batches)
    ensures outcome == Ingest(b, date, scan).outcome
  {
    var keys := ListObjectsForToday(b, date);
    if keys == [] {
      return [], NoFilesToday;
    }
    var inventory := LoadExistingIds(scan);
    if inventory.Err? {
      return [], Failed(inventory.error);
    }
    var p;
    p, log := ProcessFiles(b, Tally(inventory.value, 0, 0, []), [], keys, IdOf);
    outcome := if p.failure.Some? then Failed(p.failure.value) else Finished(p.tally.inserted, p.tally.skipped);
  }

  // ---------------------------------------------------------------------
  // Properties of a run

  /** The initial state of the file loop satisfies the inventory invariant. */
  lemma StartConsistent(init: set<Value>)
    ensures Consistent(init, Tally(init, 0, 0, []), IdOf)
  {
    assert AllKeys([], IdOf) == {};
  }

  /**
   * No id is put twice across files in one run: every put record has a
   * truthy id the scan did not return, and records of two different files
   * never share an id.
   */
  lemma IdsPutAtMostOnceAcrossFiles(b: Bucket, date: string, scan: Scan)
    ensures forall i, j :: 0 <= i < |Ingest(b, date, scan).batches| && 0 <= j < |Ingest(b, date, scan).batches[i]| ==>
      && IdOf(Ingest(b, date, scan).batches[i][j]).Found?
      && "idparking" in Ingest(b, date, scan).batches[i][j]
      && Truthy(Ingest(b, date, scan).batches[i][j]["idparking"])
      && KeysOf(Responses(scan), ScannedId).Ok?
      && IdOf(Ingest(b, date, scan).batches[i][j]).key !in KeysOf(Responses(scan), ScannedId).value
    ensures forall i1, j1, i2, j2 ::
      && 0 <= i1 < i2 < |Ingest(b, date, scan).batches|
      && 0 <= j1 < |Ingest(b, date, scan).batches[i1]|
      && 0 <= j2 < |Ingest(b, date, scan).batches[i2]|
      ==> IdOf(Ingest(b, date, scan).batches[i1][j1]) != IdOf(Ingest(b, date, scan).batches[i2][j2])
  {
    if DateKeys(b, Prefix, date) != [] && KeysOf(Responses(scan), ScannedId).Ok? {
      var init := KeysOf(Responses(scan), ScannedId).value;
      var batches := Ingest(b, date, scan).batches;
      assert batches == FilesFold(b, Tally(init, 0, 0, []), DateKeys(b, Prefix, date), IdOf).tally.batches;
      StartConsistent(init);
      FilesFoldKeepsConsistent(b, init, Tally(init, 0, 0, []), DateKeys(b, Prefix, date), IdOf);
      FreshBatchesDisjoint(init, batches, IdOf);
      forall i, j | 0 <= i < |batches| && 0 <= j < |batches[i]|
        ensures IdOf(batches[i][j]).Found? && IdOf(batches[i][j]).key !in init
        ensures "idparking" in batches[i][j] && Truthy(batches[i][j]["idparking"])
      {
        assert IdOf(batches[i][j]).Found?;
      }
    }
  }

  /** The reported `total_inserted` is the number of items put. */
  lemma InsertedCountsPuts(b: Bucket, date: string, scan: Scan)
    ensures Ingest(b, date, scan).outcome.Finished? ==>
      Ingest(b, date, scan).outcome.inserted == |WriteLog(Ingest(b, date, scan).batches)|
  {
    if Ingest(b, date, scan).outcome.Finished? {
      var init := KeysOf(Responses(scan), ScannedId).value;
      StartConsistent(init);
      FilesFoldKeepsConsistent(b, init, Tally(init, 0, 0, []), DateKeys(b, Prefix, date), IdOf);
      WriteLogLength(Ingest(b, date, scan).batches);
    }
  }

  /** With no file for the day the run returns before the scan: whatever the table holds, nothing is put. */
  lemma NoFilesIgnoresTable(b: Bucket, date: string, scan1: Scan, scan2: Scan)
    requires PagesLength(Paginate(b, DatePrefix(Prefix, date))) == 0
    ensures Ingest(b, date, scan1) == Ingest(b, date, scan2) == Run([], NoFilesToday)
  {
    ContentsOfMembers(Paginate(b, DatePrefix(Prefix, date)));
  }

  /**
   * Re-running over the same day, once the table's scan returns at least the
   * first run's inventory and every id it put, puts nothing and reports no
   * insertion.
   */
  lemma RerunPutsNothing(b: Bucket, date: string, scan1: Scan, scan2: Scan)
    requires Ingest(b, date, scan1).outcome.Finished?
    requires KeysOf(Responses(scan1), ScannedId).Ok? && KeysOf(Responses(scan2), ScannedId).Ok?
    requires KeysOf(Responses(scan1), ScannedId).value + AllKeys(Ingest(b, date, scan1).batches, IdOf)
      <= KeysOf(Responses(scan2), ScannedId).value
    ensures Ingest(b, date, scan2).outcome.Finished?
    ensures Ingest(b, date, scan2).outcome.inserted == 0
    ensures WriteLog(Ingest(b, date, scan2).batches) == []
  {
    var keys := DateKeys(b, Prefix, date);
    var init := KeysOf(Responses(scan1), ScannedId).value;
    var later := KeysOf(Responses(scan2), ScannedId).value;
    var first := FilesFold(b, Tally(init, 0, 0, []), keys, IdOf);
    StartConsistent(init);
    FilesFoldKeepsConsistent(b, init, Tally(init, 0, 0, []), keys, IdOf);
    FilesFoldSettles(b, Tally(init, 0, 0, []), keys, IdOf);
    SettledGrows(b, keys, first.tally.existing, later, IdOf);
    FilesFoldIdle(b, Tally(later, 0, 0, []), keys, IdOf);
  }

  /**
   * The item put for a selected record is selected by the same id, and a
   * scan of the table reads that id back, unless the id is a float whose
   * text is not a plain integral numeral (a fractional part, an exponent
   * form, `inf`, `nan`). A record that is not selected stays unselected.
   */
  lemma IdSurvivesConversion(r: Record)
    ensures IdOf(r).Found? && !(r["idparking"].Float? && IntegralNumeral(r["idparking"].text).None?) ==>
      IdOf(ToDecimalRecord(r)) == IdOf(r) && ScannedId(ToDecimalRecord(r)) == IdOf(r)
    ensures IdOf(r).Absent? ==> IdOf(ToDecimalRecord(r)).Absent?
  {
    if "idparking" in r {
      ToDecimalKeepsScalarMeaning(r["idparking"]);
      if IdOf(r).Found? && !(r["idparking"].Float? && IntegralNumeral(r["idparking"].text).None?) {
        ToDecimalKeepsSetKey(r["idparking"]);
      }
    }
  }
}
