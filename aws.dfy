/**
 * The two AWS services the ingestion scripts talk to, reduced to the data
 * they return: an S3 bucket is the pages `list_objects_v2` returns for
 * each requested prefix plus the decoded records of each object, and a
 * DynamoDB scan is the sequence of responses the table hands back, each
 * with an optional `LastEvaluatedKey`. The listing and scan loops shared
 * by the three scripts are here.
 */
module Aws {
  import opened Wrappers
  import opened Text
  import opened Json

  /** The exceptions that end a run. */
  datatype Error =
    | KeyError(field: string)          // item[field] on an item without that field
    | ConversionError(field: string)   // int(...) of a field raised
    | UnhashableKey(field: string)     // a list or dict used as a set member
    | IndexError(prefix: string)       // prefix.split("/")[-2] of a prefix with no "/"
    | NoSuchKey(objectKey: string)     // get_object on a key the bucket does not hold

  /** Set-valued results combined in order: the first error wins. */
  function Chain<K>(first: Result<set<K>, Error>, second: Result<set<K>, Error>): Result<set<K>, Error> {
    if first.Err? then first
    else if second.Err? then second
    else Ok(first.value + second.value)
  }

  lemma ChainStep<K>(a: set<K>, b: set<K>, x: Result<set<K>, Error>)
    ensures Chain(Ok(a), Chain(Ok(b), x)) == Chain(Ok(a + b), x)
    ensures Chain(Ok({}), x) == x
  {
    if x.Ok? {
      assert a + (b + x.value) == a + b + x.value;
      assert {} + x.value == x.value;
    }
  }

  lemma ChainAssociates<K>(a: set<K>, b: set<K>, x: Result<set<K>, Error>, y: Result<set<K>, Error>)
    ensures Chain(Ok(a), Chain(Chain(Ok(b), x), y)) == Chain(Ok(a + b), Chain(x, y))
  {
    if x.Ok? && y.Ok? {
      assert a + (b + x.value + y.value) == a + b + (x.value + y.value);
    }
  }

  // ---------------------------------------------------------------------
  // S3

  /** One page of a `list_objects_v2` response: its CommonPrefixes, and the Key of each of its Contents. */
  datatype ListPage = ListPage(commonPrefixes: seq<string>, contents: seq<string>)

  datatype Bucket = Bucket(listings: map<string, seq<ListPage>>, objects: map<string, seq<Record>>)

  /** `paginator.paginate(Bucket=..., Prefix=prefix)`. */
  function Paginate(b: Bucket, prefix: string): seq<ListPage> {
    if prefix in b.listings then b.listings[prefix] else []
  }

  /** The listing `paginate(Prefix=root + "/", Delimiter="/")` of the dated folders under a dataset's root. */
  function FolderListing(b: Bucket, root: string): seq<ListPage> {
    Paginate(b, root + "/")
  }

  /** The prefix `f"{PREFIX}/{date_prefix}/"` of one date's objects under a dataset's root. */
  function DatePrefix(root: string, date: string): string {
    root + "/" + date + "/"
  }

  /** The object keys of one date under a dataset's root, pages in order. */
  function DateKeys(b: Bucket, root: string, date: string): seq<string> {
    ContentsOf(Paginate(b, DatePrefix(root, date)))
  }

  /** `json.loads(s3.get_object(Bucket=..., Key=key)["Body"].read())`. */
  function GetObject(b: Bucket, key: string): Result<seq<Record>, Error> {
    if key in b.objects then Ok(b.objects[key]) else Err(NoSuchKey(key))
  }

  /** Every Contents key of every page, pages in order and keys in page order. */
  function ContentsOf(pages: seq<ListPage>): seq<string>
    decreases |pages|
  {
    if pages == [] then [] else pages[0].contents + ContentsOf(pages[1..])
  }

  /** A key is listed exactly when some page holds it, and listing page by page loses and invents nothing. */
  lemma {:induction false} ContentsOfMembers(pages: seq<ListPage>)
    ensures forall k :: k in ContentsOf(pages) <==> exists i :: 0 <= i < |pages| && k in pages[i].contents
    ensures |ContentsOf(pages)| == PagesLength(pages)
    decreases |pages|
  {
    if pages != [] {
      ContentsOfMembers(pages[1..]);
      forall k ensures k in ContentsOf(pages) <==> exists i :: 0 <= i < |pages| && k in pages[i].contents {
        if k in ContentsOf(pages[1..]) {
          var i :| 0 <= i < |pages[1..]| && k in pages[1..][i].contents;
          assert k in pages[i + 1].contents;
        }
        if exists i :: 0 <= i < |pages| && k in pages[i].contents {
          var i :| 0 <= i < |pages| && k in pages[i].contents;
          if i > 0 { assert k in pages[1..][i - 1].contents; }
        }
      }
    }
  }

  /** The number of Contents entries over all pages. */
  function PagesLength(pages: seq<ListPage>): nat
    decreases |pages|
  {
    if pages == [] then 0 else |pages[0].contents| + PagesLength(pages[1..])
  }

  /**
   * The `for page in paginator.paginate(...)` / `for obj in page.get("Contents", [])`
   * loop that appends (or yields) `obj["Key"]`.
   */
  method ListKeys(pages: seq<ListPage>) returns (keys: seq<string>)
    ensures keys == ContentsOf(pages)
  {
    keys := [];
    assert pages[0..] == pages;
    for i := 0 to |pages|
      invariant keys + ContentsOf(pages[i..]) == ContentsOf(pages)
    {
      ghost var later := ContentsOf(pages[i + 1..]);
      assert pages[i..][1..] == pages[i + 1..];
      assert keys + (pages[i].contents + later) == (keys + pages[i].contents) + later;
      keys := AppendKeys(keys, pages[i].contents);
    }
  }

  /** `for obj in page.get("Contents", []): keys.append(obj["Key"])`. */
  method AppendKeys(keys: seq<string>, contents: seq<string>) returns (keys': seq<string>)
    ensures keys' == keys + contents
  {
    keys' := keys;
    for j := 0 to |contents|
      invariant keys' == keys + contents[..j]
    {
      assert contents[..j + 1] == contents[..j] + [contents[j]];
      keys' := keys' + [contents[j]];
    }
    assert contents[..|contents|] == contents;
  }

  /** The folder names of a page's CommonPrefixes, dropping "" when `dropEmpty`. */
  function PrefixFolders(prefixes: seq<string>, dropEmpty: bool): Result<set<string>, Error>
    decreases |prefixes|
  {
    if prefixes == [] then Ok({})
    else match FolderName(prefixes[0])
      case None => Err(IndexError(prefixes[0]))
      case Some(f) => Chain(Ok(if dropEmpty && f == "" then {} else {f}), PrefixFolders(prefixes[1..], dropEmpty))
  }

  function FoldersOf(pages: seq<ListPage>, dropEmpty: bool): Result<set<string>, Error>
    decreases |pages|
  {
    if pages == [] then Ok({})
    else Chain(PrefixFolders(pages[0].commonPrefixes, dropEmpty), FoldersOf(pages[1..], dropEmpty))
  }

  /** A common prefix the listing returned, at page `i`, position `j`. */
  predicate ListedPrefix(pages: seq<ListPage>, i: int, j: int) {
    0 <= i < |pages| && 0 <= j < |pages[i].commonPrefixes|
  }

  lemma {:induction false} PrefixFoldersMeaning(prefixes: seq<string>, dropEmpty: bool)
    ensures PrefixFolders(prefixes, dropEmpty).Err? <==> exists j :: 0 <= j < |prefixes| && '/' !in prefixes[j]
    ensures PrefixFolders(prefixes, dropEmpty).Ok? ==>
      forall f :: f in PrefixFolders(prefixes, dropEmpty).value <==>
        (!dropEmpty || f != "") && exists j :: 0 <= j < |prefixes| && FolderName(prefixes[j]) == Some(f)
    decreases |prefixes|
  {
    if prefixes != [] {
      var tail := prefixes[1..];
      PrefixFoldersMeaning(tail, dropEmpty);
      assert forall j :: 0 <= j < |tail| ==> tail[j] == prefixes[j + 1];
      assert forall j :: 1 <= j < |prefixes| ==> prefixes[j] == tail[j - 1];
    }
  }

  /**
   * The folders a delimited listing yields: the run fails exactly when a
   * common prefix has no "/", and otherwise a name is a folder exactly when
   * it is `split("/")[-2]` of some common prefix of some page (and is not ""
   * when empty names are dropped).
   */
  lemma {:induction false} FoldersOfMeaning(pages: seq<ListPage>, dropEmpty: bool)
    ensures FoldersOf(pages, dropEmpty).Err? <==>
      exists i, j :: ListedPrefix(pages, i, j) && '/' !in pages[i].commonPrefixes[j]
    ensures FoldersOf(pages, dropEmpty).Ok? ==>
      forall f :: f in FoldersOf(pages, dropEmpty).value <==>
        (!dropEmpty || f != "") &&
        exists i, j :: ListedPrefix(pages, i, j) && FolderName(pages[i].commonPrefixes[j]) == Some(f)
    decreases |pages|
  {
    if pages != [] {
      var tail := pages[1..];
      FoldersOfMeaning(tail, dropEmpty);
      PrefixFoldersMeaning(pages[0].commonPrefixes, dropEmpty);
      assert forall i, j :: ListedPrefix(tail, i, j) ==> ListedPrefix(pages, i + 1, j) && tail[i] == pages[i + 1];
      assert forall i, j :: ListedPrefix(pages, i, j) && i > 0 ==> ListedPrefix(tail, i - 1, j) && tail[i - 1] == pages[i];
    }
  }

  /**
   * The `for page in paginator.paginate(..., Delimiter="/")` /
   * `for prefix in page.get("CommonPrefixes", [])` loop that adds
   * `prefix["Prefix"].split("/")[-2]` to a set.
   */
  method ListFolders(pages: seq<ListPage>, dropEmpty: bool) returns (r: Result<set<string>, Error>)
    ensures r == FoldersOf(pages, dropEmpty)
  {
    var folders: set<string> := {};
    assert pages[0..] == pages;
    ChainStep({}, {}, FoldersOf(pages, dropEmpty));
    for i := 0 to |pages|
      invariant FoldersOf(pages, dropEmpty) == Chain(Ok(folders), FoldersOf(pages[i..], dropEmpty))
    {
      var prefixes := pages[i].commonPrefixes;
      ghost var later := FoldersOf(pages[i + 1..], dropEmpty);
      assert pages[i..][1..] == pages[i + 1..];
      assert FoldersOf(pages[i..], dropEmpty) == Chain(PrefixFolders(prefixes, dropEmpty), later);
      assert prefixes[0..] == prefixes;
      for j := 0 to |prefixes|
        invariant FoldersOf(pages, dropEmpty) == Chain(Ok(folders), Chain(PrefixFolders(prefixes[j..], dropEmpty), later))
      {
        assert prefixes[j..][1..] == prefixes[j + 1..];
        var folder := FolderName(prefixes[j]);
        if folder.None? {
          return Err(IndexError(prefixes[j]));
        }
        var found := if dropEmpty && folder.value == "" then {} else {folder.value};
        ChainAssociates(folders, found, PrefixFolders(prefixes[j + 1..], dropEmpty), later);
        folders := folders + found;
      }
      assert prefixes[|prefixes|..] == [];
      ChainStep(folders, {}, later);
      assert folders + {} == folders;
    }
    r := Ok(folders);
  }

  // ---------------------------------------------------------------------
  // DynamoDB writes

  /** The items `batch.put_item(Item=to_decimal(rec))` sends, one per record, in order. */
  function Converted(records: seq<Record>): (items: seq<Record>)
    ensures |items| == |records|
    ensures forall i :: 0 <= i < |records| ==> items[i] == ToDecimalRecord(records[i])
    decreases |records|
  {
    if records == [] then [] else Converted(records[..|records| - 1]) + [ToDecimalRecord(records[|records| - 1])]
  }

  /** Converting two runs of records one after the other is converting them together. */
  lemma ConvertedAppend(a: seq<Record>, c: seq<Record>)
    ensures Converted(a + c) == Converted(a) + Converted(c)
  {
    var l, r := Converted(a + c), Converted(a) + Converted(c);
    forall i | 0 <= i < |l| ensures l[i] == r[i] {
      if i < |a| { assert (a + c)[i] == a[i]; } else { assert (a + c)[i] == c[i - |a|]; }
    }
  }

  /** `for rec in records: batch.put_item(Item=to_decimal(rec))`. */
  method PutRecords(log: seq<Record>, records: seq<Record>) returns (log': seq<Record>)
    ensures log' == log + Converted(records)
  {
    log' := log;
    for i := 0 to |records|
      invariant log' == log + Converted(records[..i])
    {
      assert records[..i + 1][..i] == records[..i];
      log' := log' + [ToDecimalRecord(records[i])];
    }
    assert records[..|records|] == records;
  }

  /** The table's write log for a sequence of batches, one batch per `with table.batch_writer()` block. */
  function WriteLog(batches: seq<seq<Record>>): seq<Record>
    decreases |batches|
  {
    if batches == [] then [] else WriteLog(batches[..|batches| - 1]) + Converted(batches[|batches| - 1])
  }

  /** The number of records over all batches. */
  function TotalLength(batches: seq<seq<Record>>): nat
    decreases |batches|
  {
    if batches == [] then 0 else TotalLength(batches[..|batches| - 1]) + |batches[|batches| - 1]|
  }

  lemma {:induction false} WriteLogLength(batches: seq<seq<Record>>)
    ensures |WriteLog(batches)| == TotalLength(batches)
    decreases |batches|
  {
    if batches != [] { WriteLogLength(batches[..|batches| - 1]); }
  }

  lemma WriteLogSnoc(batches: seq<seq<Record>>, batch: seq<Record>)
    ensures WriteLog(batches + [batch]) == WriteLog(batches) + Converted(batch)
    ensures TotalLength(batches + [batch]) == TotalLength(batches) + |batch|
  {
    assert (batches + [batch])[..|batches|] == batches;
  }

  /**
   * The run's write log splits at any file: the items of the earlier
   * batches come first, then those of the later ones, and the record
   * counts add up the same way.
   */
  lemma {:induction false} WriteLogAppend(a: seq<seq<Record>>, c: seq<seq<Record>>)
    ensures WriteLog(a + c) == WriteLog(a) + WriteLog(c)
    ensures TotalLength(a + c) == TotalLength(a) + TotalLength(c)
    decreases |c|
  {
    if c == [] {
      assert a + c == a;
    } else {
      var init, last := c[..|c| - 1], c[|c| - 1];
      assert c == init + [last];
      WriteLogAppend(a, init);
      var front := a + init;
      assert a + (init + [last]) == front + [last];
      WriteLogSnoc(front, last);
      WriteLogSnoc(init, last);
      Reassociate(WriteLog(a), WriteLog(init), Converted(last));
    }
  }

  lemma Reassociate(x: seq<Record>, y: seq<Record>, z: seq<Record>)
    ensures x + (y + z) == (x + y) + z
  {
  }

  // ---------------------------------------------------------------------
  // DynamoDB scan

  /** One `table.scan(...)` response: its Items and, unless it is the last, its LastEvaluatedKey. */
  datatype ScanPage = ScanPage(items: seq<Record>, lastEvaluatedKey: Option<Record>)

  /** Some response carries no LastEvaluatedKey. */
  predicate Ends(pages: seq<ScanPage>)
    decreases |pages|
  {
    pages != [] && (pages[0].lastEvaluatedKey.None? || Ends(pages[1..]))
  }

  /** The responses a table would give to successive scan calls; some response ends the scan. */
  type Scan = pages: seq<ScanPage> | Ends(pages) witness [ScanPage([], None)]

  /** The responses a client that follows LastEvaluatedKey actually requests. */
  function Responses(pages: seq<ScanPage>): seq<ScanPage>
    decreases |pages|
  {
    if pages == [] then []
    else if pages[0].lastEvaluatedKey.None? then [pages[0]]
    else [pages[0]] + Responses(pages[1..])
  }

  /**
   * The requested responses are the table's responses up to and including
   * the first without LastEvaluatedKey: every earlier one carries one, and
   * the last one does not.
   */
  lemma {:induction false} ResponsesEndAtFirstLast(pages: seq<ScanPage>)
    ensures Responses(pages) <= pages
    ensures Ends(pages) ==> Responses(pages) != [] && Responses(pages)[|Responses(pages)| - 1].lastEvaluatedKey.None?
    ensures forall i :: 0 <= i < |Responses(pages)| - 1 ==> Responses(pages)[i].lastEvaluatedKey.Some?
    decreases |pages|
  {
    if pages != [] && pages[0].lastEvaluatedKey.Some? {
      var rest := Responses(pages[1..]);
      ResponsesEndAtFirstLast(pages[1..]);
      assert pages == [pages[0]] + pages[1..];
      assert forall i :: 1 <= i < |[pages[0]] + rest| ==> ([pages[0]] + rest)[i] == rest[i - 1];
    }
  }

  /** What one scanned item contributes to an inventory. */
  datatype Extracted<K> = Found(key: K) | Absent | Raises(error: Error)

  /** The keys of a response's items, in item order; the first item that raises ends it. */
  function ItemsKeys<K>(items: seq<Record>, key: Record -> Extracted<K>): Result<set<K>, Error>
    decreases |items|
  {
    if items == [] then Ok({})
    else match key(items[0])
      case Raises(e) => Err(e)
      case Absent => ItemsKeys(items[1..], key)
      case Found(k) => Chain(Ok({k}), ItemsKeys(items[1..], key))
  }

  function KeysOf<K>(pages: seq<ScanPage>, key: Record -> Extracted<K>): Result<set<K>, Error>
    decreases |pages|
  {
    if pages == [] then Ok({})
    else Chain(ItemsKeys(pages[0].items, key), KeysOf(pages[1..], key))
  }

  /** A scanned item, at response `i`, position `j`. */
  predicate ScannedItem(pages: seq<ScanPage>, i: int, j: int) {
    0 <= i < |pages| && 0 <= j < |pages[i].items|
  }

  lemma {:induction false} ItemsKeysMeaning<K>(items: seq<Record>, key: Record -> Extracted<K>)
    ensures ItemsKeys(items, key).Err? <==> exists j :: 0 <= j < |items| && key(items[j]).Raises?
    ensures ItemsKeys(items, key).Ok? ==>
      forall k :: k in ItemsKeys(items, key).value <==> exists j :: 0 <= j < |items| && key(items[j]) == Found(k)
    decreases |items|
  {
    if items != [] {
      var tail := items[1..];
      ItemsKeysMeaning(tail, key);
      assert forall j :: 0 <= j < |tail| ==> tail[j] == items[j + 1];
      assert forall j :: 1 <= j < |items| ==> items[j] == tail[j - 1];
    }
  }

  /**
   * What a scan of these responses yields: it fails exactly when some item's
   * key extraction raises, and otherwise the inventory is the union, over all
   * responses, of the keys their items yield.
   */
  lemma {:induction false} KeysOfMeaning<K>(pages: seq<ScanPage>, key: Record -> Extracted<K>)
    ensures KeysOf(pages, key).Err? <==> exists i, j :: ScannedItem(pages, i, j) && key(pages[i].items[j]).Raises?
    ensures KeysOf(pages, key).Ok? ==>
      forall k :: k in KeysOf(pages, key).value <==>
        exists i, j :: ScannedItem(pages, i, j) && key(pages[i].items[j]) == Found(k)
    decreases |pages|
  {
    if pages != [] {
      var tail := pages[1..];
      KeysOfMeaning(tail, key);
      ItemsKeysMeaning(pages[0].items, key);
      assert forall i, j :: ScannedItem(tail, i, j) ==> ScannedItem(pages, i + 1, j) && tail[i] == pages[i + 1];
      assert forall i, j :: ScannedItem(pages, i, j) && i > 0 ==> ScannedItem(tail, i - 1, j) && tail[i - 1] == pages[i];
    }
  }

  /** The responses still to be requested once response `i` has been read. */
  function Later(pages: seq<ScanPage>, i: nat): seq<ScanPage>
    requires i < |pages|
  {
    if pages[i].lastEvaluatedKey.Some? then Responses(pages[i + 1..]) else []
  }

  lemma ResponsesFrom<K>(pages: seq<ScanPage>, i: nat, key: Record -> Extracted<K>)
    requires i < |pages|
    requires Ends(pages[i..])
    ensures Responses(pages[i..]) == [pages[i]] + Later(pages, i)
    ensures KeysOf(Responses(pages[i..]), key) == Chain(ItemsKeys(pages[i].items, key), KeysOf(Later(pages, i), key))
    ensures pages[i].lastEvaluatedKey.Some? ==> Ends(pages[i + 1..])
  {
    assert pages[i..][1..] == pages[i + 1..];
    assert ([pages[i]] + Later(pages, i))[1..] == Later(pages, i);
  }

  /**
   * The loop shared by the three scripts' loaders: one `table.scan(...)`,
   * then another with `ExclusiveStartKey` for as long as the last response
   * carries a `LastEvaluatedKey`, adding the keys of every response's items
   * to a set. `calls` counts the scan requests.
   */
  method ScanKeys<K>(pages: Scan, key: Record -> Extracted<K>) returns (r: Result<set<K>, Error>, calls: nat)
    ensures r == KeysOf(Responses(pages), key)
    ensures calls <= |Responses(pages)|
    ensures r.Ok? ==> calls == |Responses(pages)|
  {
    ghost var all := Responses(pages);
    ScanFirst(all, pages, key);
    var response := pages[0];
    calls := 1;
    var got := ItemsKeys(response.items, key);
    if got.Err? {
      return Err(got.error), calls;
    }
    var inventory := got.value;
    while response.lastEvaluatedKey.Some?
      invariant Following(all, pages, calls, inventory, key)
      invariant response == pages[calls - 1]
      decreases |pages| - calls
    {
      ScanNext(all, pages, calls, inventory, key);
      response := pages[calls];
      calls := calls + 1;
      got := ItemsKeys(response.items, key);
      if got.Err? {
        return Err(got.error), calls;
      }
      inventory := inventory + got.value;
    }
    ScanDone(all, pages, calls, inventory, key);
    r := Ok(inventory);
  }

  /**
   * The state of the scan loop after `calls` requests: `inventory` holds the
   * keys of the responses read so far, and the keys of all requested
   * responses are those plus the keys of the responses still to come.
   */
  ghost predicate Following<K>(all: seq<ScanPage>, pages: seq<ScanPage>, calls: nat, inventory: set<K>, key: Record -> Extracted<K>) {
    && 1 <= calls <= |pages|
    && |all| == calls + |Later(pages, calls - 1)|
    && KeysOf(all, key) == Chain(Ok(inventory), KeysOf(Later(pages, calls - 1), key))
    && (pages[calls - 1].lastEvaluatedKey.Some? ==>
          Ends(pages[calls..]) && Later(pages, calls - 1) == Responses(pages[calls..]))
  }

  /** The first `table.scan(...)`. */
  lemma ScanFirst<K>(all: seq<ScanPage>, pages: seq<ScanPage>, key: Record -> Extracted<K>)
    requires Ends(pages) && all == Responses(pages)
    ensures 1 <= |all|
    ensures ItemsKeys(pages[0].items, key).Err? ==> KeysOf(all, key) == ItemsKeys(pages[0].items, key)
    ensures ItemsKeys(pages[0].items, key).Ok? ==> Following(all, pages, 1, ItemsKeys(pages[0].items, key).value, key)
  {
    assert pages[0..] == pages;
    ResponsesFrom(pages, 0, key);
    if ItemsKeys(pages[0].items, key).Ok? {
      ChainStep({}, ItemsKeys(pages[0].items, key).value, KeysOf(Later(pages, 0), key));
      assert {} + ItemsKeys(pages[0].items, key).value == ItemsKeys(pages[0].items, key).value;
    }
  }

  /** A further `table.scan(..., ExclusiveStartKey=...)`, made while the last response carried a LastEvaluatedKey. */
  lemma ScanNext<K>(all: seq<ScanPage>, pages: seq<ScanPage>, calls: nat, inventory: set<K>, key: Record -> Extracted<K>)
    requires Following(all, pages, calls, inventory, key) && pages[calls - 1].lastEvaluatedKey.Some?
    ensures calls < |pages| && calls + 1 <= |all|
    ensures ItemsKeys(pages[calls].items, key).Err? ==> KeysOf(all, key) == ItemsKeys(pages[calls].items, key)
    ensures ItemsKeys(pages[calls].items, key).Ok? ==>
      Following(all, pages, calls + 1, inventory + ItemsKeys(pages[calls].items, key).value, key)
  {
    ResponsesFrom(pages, calls, key);
    if ItemsKeys(pages[calls].items, key).Ok? {
      ChainStep(inventory, ItemsKeys(pages[calls].items, key).value, KeysOf(Later(pages, calls), key));
    }
  }

  /** The loop stops at the response without LastEvaluatedKey, having requested every response. */
  lemma ScanDone<K>(all: seq<ScanPage>, pages: seq<ScanPage>, calls: nat, inventory: set<K>, key: Record -> Extracted<K>)
    requires Following(all, pages, calls, inventory, key) && pages[calls - 1].lastEvaluatedKey.None?
    ensures KeysOf(all, key) == Ok(inventory) && calls == |all|
  {
    assert inventory + {} == inventory;
  }
}
