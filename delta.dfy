/**
 * The per-file filter-and-write loop shared by the two identifier-keyed
 * scripts (perturbations, keyed by `gid`, and parkings, keyed by
 * `idparking`). Each script supplies its natural-key extraction as a
 * function from a record to `Found(key)`, `Absent` (the record is never
 * selected) or `Raises(error)` (Python raises while evaluating the
 * comprehension's condition, and the run ends).
 */
module Delta {
  import opened Wrappers
  import opened Json
  import opened Aws

  /** `a` is `b` with some elements left out, order kept. */
  predicate IsSubsequence<T(==)>(a: seq<T>, b: seq<T>)
    decreases |b|
  {
    if a == [] then true
    else if b == [] then false
    else (a[0] == b[0] && IsSubsequence(a[1..], b[1..])) || IsSubsequence(a, b[1..])
  }

  /** A record the comprehension selects: it has a key and the key is not yet in the inventory. */
  predicate IsNew<K>(r: Record, existing: set<K>, key: Record -> Extracted<K>) {
    key(r).Found? && key(r).key !in existing
  }

  /**
   * `new_records = [r for r in records if <r has a key> and <its key> not in existing]`,
   * evaluated against the inventory as it stood before the file.
   */
  function NewRecords<K>(records: seq<Record>, existing: set<K>, key: Record -> Extracted<K>): (picked: Result<seq<Record>, Error>)
    ensures picked.Err? <==> exists i :: 0 <= i < |records| && key(records[i]).Raises?
    ensures picked.Ok? ==> IsSubsequence(picked.value, records)
    ensures picked.Ok? ==> forall r :: r in picked.value <==> r in records && IsNew(r, existing, key)
    decreases |records|
  {
    if records == [] then Ok([])
    else
      var tail := records[1..];
      assert forall i :: 0 <= i < |tail| ==> tail[i] == records[i + 1];
      assert forall r :: r in records <==> r == records[0] || r in tail;
      match key(records[0])
      case Raises(e) => Err(e)
      case Absent => NewRecords(tail, existing, key)
      case Found(k) =>
        match NewRecords(tail, existing, key)
        case Err(e) => Err(e)
        case Ok(rest) =>
          assert ([records[0]] + rest)[1..] == rest;
          Ok(if k in existing then rest else [records[0]] + rest)
  }

  /** The keys of the records that have one. */
  function KeySet<K>(records: seq<Record>, key: Record -> Extracted<K>): set<K>
    decreases |records|
  {
    if records == [] then {}
    else
      var last := key(records[|records| - 1]);
      KeySet(records[..|records| - 1], key) + if last.Found? then {last.key} else {}
  }

  /**
   * The `with table.batch_writer() as batch:` block: each selected record is
   * put, converted by `to_decimal`, and its key is added to the inventory.
   */
  method WriteBatch<K>(log: seq<Record>, existing: set<K>, picked: seq<Record>, key: Record -> Extracted<K>)
    returns (log': seq<Record>, existing': set<K>)
    requires forall i :: 0 <= i < |picked| ==> key(picked[i]).Found?
    ensures log' == log + Converted(picked)
    ensures existing' == existing + KeySet(picked, key)
  {
    log', existing' := log, existing;
    for i := 0 to |picked|
      invariant log' == log + Converted(picked[..i])
      invariant existing' == existing + KeySet(picked[..i], key)
    {
      assert picked[..i + 1][..i] == picked[..i];
      log' := log' + [ToDecimalRecord(picked[i])];
      existing' := existing' + {key(picked[i]).key};
    }
    assert picked[..|picked|] == picked;
  }

  /**
   * The state the file loop carries: the inventory, the two counters, and
   * (for stating properties) the records each file selected, file by file.
   */
  datatype Tally<K> = Tally(existing: set<K>, inserted: nat, skipped: nat, batches: seq<seq<Record>>)

  /**
   * One file: filter it against the inventory; if nothing is new, count the
   * whole file as skipped; otherwise write the new records, add their keys
   * and count them as inserted.
   */
  function FileStep<K>(t: Tally<K>, records: seq<Record>, key: Record -> Extracted<K>): Result<Tally<K>, Error> {
    match NewRecords(records, t.existing, key)
    case Err(e) => Err(e)
    case Ok(picked) =>
      if picked == [] then Ok(t.(skipped := t.skipped + |records|, batches := t.batches + [[]]))
      else Ok(t.(existing := t.existing + KeySet(picked, key), inserted := t.inserted + |picked|, batches := t.batches + [picked]))
  }

  /** Where the file loop stopped: its state, and the exception that ended it if one did. */
  datatype Progress<K> = Progress(tally: Tally<K>, failure: Option<Error>)

  /** `for key in keys:` read the object, then take the file step. */
  function FilesFold<K>(b: Bucket, t: Tally<K>, keys: seq<string>, key: Record -> Extracted<K>): Progress<K>
    decreases |keys|
  {
    if keys == [] then Progress(t, None)
    else match GetObject(b, keys[0])
      case Err(e) => Progress(t, Some(e))
      case Ok(records) =>
        match FileStep(t, records, key)
        case Err(e) => Progress(t, Some(e))
        case Ok(t') => FilesFold(b, t', keys[1..], key)
  }

  /** The body of the file loop once the object has been read. */
  method IngestFile<K>(t: Tally<K>, log: seq<Record>, records: seq<Record>, key: Record -> Extracted<K>)
    returns (r: Result<Tally<K>, Error>, log': seq<Record>)
    requires log == WriteLog(t.batches)
    ensures r == FileStep(t, records, key)
    ensures log' == if r.Ok? then WriteLog(r.value.batches) else log
  {
    var selection := NewRecords(records, t.existing, key);
    if selection.Err? {
      return Err(selection.error), log;
    }
    var picked := selection.value;
    WriteLogSnoc(t.batches, picked);
    if picked == [] {
      return Ok(t.(skipped := t.skipped + |records|, batches := t.batches + [[]])), log;
    }
    SelectedHaveKeys(records, t.existing, key);
    var existing;
    log', existing := WriteBatch(log, t.existing, picked, key);
    r := Ok(Tally(existing, t.inserted + |picked|, t.skipped, t.batches + [picked]));
  }

  lemma SelectedHaveKeys<K>(records: seq<Record>, existing: set<K>, key: Record -> Extracted<K>)
    requires NewRecords(records, existing, key).Ok?
    ensures forall j :: 0 <= j < |NewRecords(records, existing, key).value| ==> key(NewRecords(records, existing, key).value[j]).Found?
  {
    var picked := NewRecords(records, existing, key).value;
    assert forall j :: 0 <= j < |picked| ==> picked[j] in picked;
  }

  /** `for key in keys:` read each object and ingest it. */
  method ProcessFiles<K>(b: Bucket, t: Tally<K>, log: seq<Record>, keys: seq<string>, key: Record -> Extracted<K>)
    returns (p: Progress<K>, log': seq<Record>)
    requires log == WriteLog(t.batches)
    ensures p == FilesFold(b, t, keys, key)
    ensures log' == WriteLog(p.tally.batches)
  {
    var cur := t;
    log' := log;
    assert keys[0..] == keys;
    for i := 0 to |keys|
      invariant FilesFold(b, t, keys, key) == FilesFold(b, cur, keys[i..], key)
      invariant log' == WriteLog(cur.batches)
    {
      assert keys[i..][1..] == keys[i + 1..];
      var got := GetObject(b, keys[i]);
      if got.Err? {
        return Progress(cur, Some(got.error)), log';
      }
      var next;
      next, log' := IngestFile(cur, log', got.value, key);
      if next.Err? {
        return Progress(cur, Some(next.error)), log';
      }
      cur := next.value;
    }
    p := Progress(cur, None);
  }

  // ---------------------------------------------------------------------
  // What the comprehension selects

  /** The comprehension distributes over concatenation: a file's selection is the selection of its parts, in order. */
  lemma {:induction false} NewRecordsAppend<K>(a: seq<Record>, c: seq<Record>, existing: set<K>, key: Record -> Extracted<K>)
    requires NewRecords(a, existing, key).Ok? && NewRecords(c, existing, key).Ok?
    ensures NewRecords(a + c, existing, key) == Ok(NewRecords(a, existing, key).value + NewRecords(c, existing, key).value)
    decreases |a|
  {
    if a == [] {
      assert a + c == c;
      assert NewRecords(a, existing, key).value == [];
      assert [] + NewRecords(c, existing, key).value == NewRecords(c, existing, key).value;
    } else {
      assert (a + c)[0] == a[0];
      assert (a + c)[1..] == a[1..] + c;
      NewRecordsAppend(a[1..], c, existing, key);
      var ra, rc := NewRecords(a[1..], existing, key).value, NewRecords(c, existing, key).value;
      match key(a[0])
      case Absent =>
      case Found(k) =>
        assert ([a[0]] + ra) + rc == [a[0]] + (ra + rc);
    }
  }

  /**
   * The filter runs before any inventory update, so two new records of one
   * file that share a key are both selected.
   */
  lemma SameFileDuplicatesBothSelected<K>(r1: Record, r2: Record, existing: set<K>, key: Record -> Extracted<K>)
    requires key(r1).Found? && key(r1) == key(r2) && key(r1).key !in existing
    ensures NewRecords([r1, r2], existing, key) == Ok([r1, r2])
  {
    assert [r2][1..] == [];
    assert [r2][0] == r2;
    assert NewRecords([], existing, key) == Ok([]);
    assert [r2] + [] == [r2];
    assert NewRecords([r2], existing, key) == Ok([r2]);
    assert [r1, r2][1..] == [r2];
    assert [r1] + [r2] == [r1, r2];
  }

  /** A file whose keyed records are all in the inventory yields no selection. */
  lemma {:induction false} NothingNew<K>(records: seq<Record>, existing: set<K>, key: Record -> Extracted<K>)
    requires forall r :: r in records ==> !key(r).Raises? && (key(r).Found? ==> key(r).key in existing)
    ensures NewRecords(records, existing, key) == Ok([])
    decreases |records|
  {
    if records != [] {
      assert forall r :: r in records[1..] ==> r in records;
      NothingNew(records[1..], existing, key);
    }
  }

  /**
   * The counters of one file: when some record is new, `inserted` grows by
   * the number selected and `skipped` stays put, however many records were
   * filtered out; when none is, `skipped` grows by the whole file.
   */
  lemma FileStepCounters<K>(t: Tally<K>, records: seq<Record>, key: Record -> Extracted<K>)
    requires FileStep(t, records, key).Ok?
    ensures (exists r :: r in records && IsNew(r, t.existing, key)) ==>
      && FileStep(t, records, key).value.skipped == t.skipped
      && FileStep(t, records, key).value.inserted == t.inserted + |NewRecords(records, t.existing, key).value|
      && FileStep(t, records, key).value.inserted > t.inserted
    ensures (forall r :: r in records ==> !IsNew(r, t.existing, key)) ==>
      && FileStep(t, records, key).value.skipped == t.skipped + |records|
      && FileStep(t, records, key).value.inserted == t.inserted
  {
    var picked := NewRecords(records, t.existing, key).value;
    if picked != [] {
      assert picked[0] in picked;
    }
  }

  lemma {:induction false} KeySetMembers<K>(records: seq<Record>, key: Record -> Extracted<K>)
    ensures forall k :: k in KeySet(records, key) <==> exists j :: 0 <= j < |records| && key(records[j]) == Found(k)
    decreases |records|
  {
    if records != [] {
      var init := records[..|records| - 1];
      KeySetMembers(init, key);
      assert forall j :: 0 <= j < |init| ==> init[j] == records[j];
    }
  }

  lemma {:induction false} KeySetHas<K>(records: seq<Record>, j: nat, key: Record -> Extracted<K>)
    requires j < |records| && key(records[j]).Found?
    ensures key(records[j]).key in KeySet(records, key)
    decreases |records|
  {
    if j < |records| - 1 {
      KeySetHas(records[..|records| - 1], j, key);
    }
  }

  // ---------------------------------------------------------------------
  // The inventory across files

  /** The keys of every batch. */
  function AllKeys<K>(batches: seq<seq<Record>>, key: Record -> Extracted<K>): set<K>
    decreases |batches|
  {
    if batches == [] then {} else AllKeys(batches[..|batches| - 1], key) + KeySet(batches[|batches| - 1], key)
  }

  /**
   * Every record of every batch had a key that was neither in the scanned
   * inventory `init` nor written by an earlier batch.
   */
  ghost predicate Fresh<K>(init: set<K>, batches: seq<seq<Record>>, key: Record -> Extracted<K>) {
    forall i, j :: 0 <= i < |batches| && 0 <= j < |batches[i]| ==>
      IsNew(batches[i][j], init + AllKeys(batches[..i], key), key)
  }

  /** The inventory is the scanned keys plus the keys written so far, and `inserted` counts the writes. */
  ghost predicate Consistent<K>(init: set<K>, t: Tally<K>, key: Record -> Extracted<K>) {
    && t.existing == init + AllKeys(t.batches, key)
    && Fresh(init, t.batches, key)
    && t.inserted == TotalLength(t.batches)
  }

  lemma FileStepKeepsConsistent<K>(init: set<K>, t: Tally<K>, records: seq<Record>, key: Record -> Extracted<K>)
    requires Consistent(init, t, key)
    requires FileStep(t, records, key).Ok?
    ensures Consistent(init, FileStep(t, records, key).value, key)
    ensures t.existing <= FileStep(t, records, key).value.existing
  {
    var picked := NewRecords(records, t.existing, key).value;
    var batches := t.batches + [picked];
    assert batches[..|t.batches|] == t.batches;
    assert AllKeys(batches, key) == AllKeys(t.batches, key) + KeySet(picked, key);
    WriteLogSnoc(t.batches, picked);
    forall i, j | 0 <= i < |batches| && 0 <= j < |batches[i]|
      ensures IsNew(batches[i][j], init + AllKeys(batches[..i], key), key)
    {
      if i < |t.batches| {
        assert batches[..i] == t.batches[..i];
      } else {
        assert batches[i][j] in picked;
      }
    }
  }

  lemma {:induction false} FilesFoldKeepsConsistent<K>(b: Bucket, init: set<K>, t: Tally<K>, keys: seq<string>, key: Record -> Extracted<K>)
    requires Consistent(init, t, key)
    ensures Consistent(init, FilesFold(b, t, keys, key).tally, key)
    ensures t.existing <= FilesFold(b, t, keys, key).tally.existing
    decreases |keys|
  {
    if keys != [] && GetObject(b, keys[0]).Ok? && FileStep(t, GetObject(b, keys[0]).value, key).Ok? {
      var t' := FileStep(t, GetObject(b, keys[0]).value, key).value;
      FileStepKeepsConsistent(init, t, GetObject(b, keys[0]).value, key);
      FilesFoldKeepsConsistent(b, init, t', keys[1..], key);
    }
  }

  lemma {:induction false} AllKeysIncludes<K>(batches: seq<seq<Record>>, i: nat, n: nat, key: Record -> Extracted<K>)
    requires i < n <= |batches|
    ensures KeySet(batches[i], key) <= AllKeys(batches[..n], key)
    decreases n
  {
    assert batches[..n][..n - 1] == batches[..n - 1];
    if i < n - 1 { AllKeysIncludes(batches, i, n - 1, key); }
  }

  /**
   * No key is written twice across files: no batch holds a key of the
   * scanned inventory, and two records of two different batches never share
   * a key. (Two records of one batch may, see SameFileDuplicatesBothSelected.)
   */
  lemma FreshBatchesDisjoint<K>(init: set<K>, batches: seq<seq<Record>>, key: Record -> Extracted<K>)
    requires Fresh(init, batches, key)
    ensures forall i, j :: 0 <= i < |batches| && 0 <= j < |batches[i]| ==>
      key(batches[i][j]).Found? && key(batches[i][j]).key !in init
    ensures forall i1, j1, i2, j2 ::
      0 <= i1 < i2 < |batches| && 0 <= j1 < |batches[i1]| && 0 <= j2 < |batches[i2]| ==>
        key(batches[i1][j1]) != key(batches[i2][j2])
  {
    forall i1, j1, i2, j2 | 0 <= i1 < i2 < |batches| && 0 <= j1 < |batches[i1]| && 0 <= j2 < |batches[i2]|
      ensures key(batches[i1][j1]) != key(batches[i2][j2])
    {
      assert IsNew(batches[i1][j1], init + AllKeys(batches[..i1], key), key);
      KeySetHas(batches[i1], j1, key);
      AllKeysIncludes(batches, i1, i2, key);
      assert IsNew(batches[i2][j2], init + AllKeys(batches[..i2], key), key);
    }
  }

  // ---------------------------------------------------------------------
  // Re-running over the same files

  /**
   * Every object exists, no record's key extraction raises, and every
   * record that has a key has it in `inventory`.
   */
  ghost predicate Settled<K>(b: Bucket, keys: seq<string>, inventory: set<K>, key: Record -> Extracted<K>) {
    forall i :: 0 <= i < |keys| ==>
      && GetObject(b, keys[i]).Ok?
      && forall r :: r in GetObject(b, keys[i]).value ==>
           !key(r).Raises? && (key(r).Found? ==> key(r).key in inventory)
  }

  /** After a loop that read every file, every keyed record of those files has its key in the inventory. */
  lemma {:induction false} FilesFoldSettles<K>(b: Bucket, t: Tally<K>, keys: seq<string>, key: Record -> Extracted<K>)
    requires FilesFold(b, t, keys, key).failure.None?
    ensures Settled(b, keys, FilesFold(b, t, keys, key).tally.existing, key)
    ensures t.existing <= FilesFold(b, t, keys, key).tally.existing
    decreases |keys|
  {
    if keys != [] {
      var records := GetObject(b, keys[0]).value;
      var t' := FileStep(t, records, key).value;
      var final := FilesFold(b, t, keys, key).tally.existing;
      FilesFoldSettles(b, t', keys[1..], key);
      var picked := NewRecords(records, t.existing, key).value;
      KeySetMembers(picked, key);
      assert FilesFold(b, t, keys, key) == FilesFold(b, t', keys[1..], key);
      assert t.existing <= t'.existing;
      assert KeySet(picked, key) <= t'.existing;
      forall r | r in records && key(r).Found? ensures key(r).key in final {
        if key(r).key !in t.existing {
          assert r in picked;
          var j :| 0 <= j < |picked| && picked[j] == r;
          KeySetHas(picked, j, key);
        }
      }
      forall i | 0 <= i < |keys| ensures GetObject(b, keys[i]).Ok? {
        if i > 0 { assert keys[1..][i - 1] == keys[i]; }
      }
      assert forall i :: 1 <= i < |keys| ==> keys[1..][i - 1] == keys[i];
    }
  }

  /** Over settled files the loop selects nothing: it reads every file, writes nothing and inserts nothing. */
  lemma {:induction false} FilesFoldIdle<K>(b: Bucket, t: Tally<K>, keys: seq<string>, key: Record -> Extracted<K>)
    requires Settled(b, keys, t.existing, key)
    ensures FilesFold(b, t, keys, key).failure.None?
    ensures FilesFold(b, t, keys, key).tally.existing == t.existing
    ensures FilesFold(b, t, keys, key).tally.inserted == t.inserted
    ensures WriteLog(FilesFold(b, t, keys, key).tally.batches) == WriteLog(t.batches)
    decreases |keys|
  {
    if keys != [] {
      var records := GetObject(b, keys[0]).value;
      var picked := NewRecords(records, t.existing, key);
      NothingNew(records, t.existing, key);
      var t' := t.(skipped := t.skipped + |records|, batches := t.batches + [[]]);
      WriteLogSnoc(t.batches, []);
      assert Settled(b, keys[1..], t'.existing, key) by {
        assert forall i :: 0 <= i < |keys[1..]| ==> keys[1..][i] == keys[i + 1];
      }
      FilesFoldIdle(b, t', keys[1..], key);
    }
  }

  lemma SettledGrows<K>(b: Bucket, keys: seq<string>, small: set<K>, large: set<K>, key: Record -> Extracted<K>)
    requires Settled(b, keys, small, key) && small <= large
    ensures Settled(b, keys, large, key)
  {
  }
}
