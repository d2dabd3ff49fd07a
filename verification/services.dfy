/** The tag-reconciliation pipeline of `services.py`: ingest the uploaded
    workbooks into `temp_csv/`, merge the competitor tables into
    `temp_csv/joined_table.csv`, rank the competitor tags the primary shop
    lacks into `result/result_<timestamp>.xlsx`, and clear `temp_csv/`. */
module Services {
  import opened Frame
  import opened Formats
  import opened Store
  import opened Naming
  import Dedup
  import Concat
  import Ranking

  const TagOccurrences := "Tag Occurrences"

  // ---------------------------------------------------------------- storing

  /** `save_csv_to_aws`: writes `temp_csv/<name>.csv`. */
  method SaveCsvToAws(bucket: Bucket, body: Blob, name: string)
    modifies bucket
    ensures bucket.objects == old(bucket.objects)[TempKey(name) := body]
  {
    bucket.Put(TempKey(name), body);
  }

  /** `save_xlsx_to_aws`: writes the result under the key named after `now`
      and returns that key. */
  method SaveXlsxToAws(bucket: Bucket, body: Blob, now: Timestamp) returns (path: string)
    modifies bucket
    ensures path == ResultKey(now) && ResultPrefix <= path
    ensures bucket.objects == old(bucket.objects)[path := body]
  {
    ResultKeyProperties(now, now);
    path := ResultKey(now);
    bucket.Put(path, body);
  }

  // -------------------------------------------------------------- ingestion

  /** `convert_to_csv`: reads the workbook, whose first row becomes the header,
      and writes its data rows as CSV without that header. */
  function ConvertToCsv(upload: Blob): (r: Result<Blob>)
    ensures r.Err? <==> upload.Csv?
    ensures r.Err? ==> r.error == UnsupportedFormat
    ensures r.Ok? ==> r.value.Csv?
    ensures upload.Xlsx? && upload.grid == [] ==> r == Ok(Csv([]))
    ensures upload.Xlsx? && upload.grid != [] ==>
      && |r.value.lines| == |upload.grid| - 1
      && forall i :: 1 <= i < |upload.grid| ==>
           |r.value.lines[i - 1]| == MaxWidth(upload.grid) && r.value.lines[i - 1][..|upload.grid[i]|] == upload.grid[i]
  {
    var t :- ReadExcel(upload);
    Ok(WriteCsv(t, false))
  }

  /** The cells that fill out a short data row of the sheet are written as
      empty fields. */
  lemma ConvertToCsvFillsMissing(upload: Blob, i: nat, k: nat)
    requires upload.Xlsx? && 1 <= i < |upload.grid| && |upload.grid[i]| <= k < MaxWidth(upload.grid)
    ensures ConvertToCsv(upload).value.lines[i - 1][k] == Missing
  {
    ReadExcelFillsMissing(upload, i, k);
  }

  /** What a stored upload reads back as: the sheet's SECOND row (the first
      data row) is taken as the header and the rows after it as data, for the
      primary sheet and the competitor sheets alike; a sheet with fewer than
      two rows leaves an unreadable empty body. */
  lemma StoredUploadReload(upload: Blob)
    requires upload.Xlsx?
    ensures var g := upload.grid; var p := PadRows(g, MaxWidth(g));
      && (|g| < 2 ==> ReadCsv(ConvertToCsv(upload).value) == Err(EmptyData))
      && (|g| >= 2 ==> ReadCsv(ConvertToCsv(upload).value) == Ok(Table(p[1], p[2..])))
  {
    var t := ReadExcel(upload).value;
    HeaderlessReload(t);
    var g := upload.grid;
    if |g| >= 2 {
      var p := PadRows(g, MaxWidth(g));
      assert t.rows == p[1..];
    }
  }

  /** The store and outcome after saving competitor uploads under
      `table_<counter>`, `table_<counter + 1>`, ... until one fails. */
  function IngestFrom(m: map<string, Blob>, uploads: seq<Blob>, counter: nat): (map<string, Blob>, Outcome)
    decreases |uploads|
  {
    if uploads == [] then (m, Pass)
    else
      match ConvertToCsv(uploads[0])
      case Err(e) => (m, Fail(e))
      case Ok(b) => IngestFrom(m[TableKey(counter) := b], uploads[1..], counter + 1)
  }

  /** The store and outcome of `convert_to_csv_and_save_to_aws`. */
  function Ingest(m: map<string, Blob>, primary: Blob, uploads: seq<Blob>): (map<string, Blob>, Outcome)
  {
    match ConvertToCsv(primary)
    case Err(e) => (m, Fail(e))
    case Ok(b) => IngestFrom(m[MyShopKey := b], uploads, 1)
  }

  /** `convert_to_csv_and_save_to_aws`: the primary upload to `my_shop`, then
      each competitor upload to `table_1`, `table_2`, ...; the first upload
      that is not a workbook stops it, leaving what was written before. */
  method ConvertToCsvAndSaveToAws(bucket: Bucket, primary: Blob, uploads: seq<Blob>) returns (r: Outcome)
    modifies bucket
    ensures (bucket.objects, r) == Ingest(old(bucket.objects), primary, uploads)
  {
    var myShop := ConvertToCsv(primary);
    if myShop.Err? {
      return Fail(myShop.error);
    }
    SaveCsvToAws(bucket, myShop.value, "my_shop");
    var counter := 1;
    var i := 0;
    while i < |uploads|
      invariant 0 <= i <= |uploads| && counter == i + 1
      invariant IngestFrom(bucket.objects, uploads[i..], counter) == Ingest(old(bucket.objects), primary, uploads)
    {
      assert uploads[i..][1..] == uploads[i + 1..];
      var table := ConvertToCsv(uploads[i]);
      if table.Err? {
        return Fail(table.error);
      }
      SaveCsvToAws(bucket, table.value, "table_" + NatToString(counter));
      counter := counter + 1;
      i := i + 1;
    }
    r := Pass;
  }

  /** How many uploads from the front are workbooks, and so convert. */
  function Leading(uploads: seq<Blob>): (n: nat)
    ensures n <= |uploads|
    ensures forall i :: 0 <= i < n ==> uploads[i].Xlsx?
    ensures n < |uploads| ==> uploads[n].Csv?
  {
    if uploads == [] || uploads[0].Csv? then 0
    else
      assert forall i :: 1 <= i < |uploads| ==> uploads[1..][i - 1] == uploads[i];
      1 + Leading(uploads[1..])
  }

  lemma {:induction false} IngestFromOutcome(m: map<string, Blob>, uploads: seq<Blob>, c: nat)
    ensures IngestFrom(m, uploads, c).1 == Pass <==> Leading(uploads) == |uploads|
    ensures IngestFrom(m, uploads, c).1.Fail? ==> IngestFrom(m, uploads, c).1.error == UnsupportedFormat
    decreases |uploads|
  {
    if uploads != [] && uploads[0].Xlsx? {
      IngestFromOutcome(m[TableKey(c) := ConvertToCsv(uploads[0]).value], uploads[1..], c + 1);
    }
  }

  /** The CSV bodies of the first `n` uploads, which are all workbooks. */
  function Converted(uploads: seq<Blob>, n: nat): (cs: seq<Blob>)
    requires n <= Leading(uploads)
    ensures |cs| == n
  {
    seq(n, i requires 0 <= i < n => ConvertToCsv(uploads[i]).value)
  }

  /** The store after writing `blobs` under `table_<c>`, `table_<c + 1>`, ...:
      the writes of `IngestFrom`, apart from the conversions. */
  function SaveAll(m: map<string, Blob>, blobs: seq<Blob>, c: nat): map<string, Blob>
    decreases |blobs|
  {
    if blobs == [] then m else SaveAll(m[TableKey(c) := blobs[0]], blobs[1..], c + 1)
  }

  lemma {:induction false} SaveAllUntouched(m: map<string, Blob>, blobs: seq<Blob>, c: nat, k: string)
    requires forall j :: c <= j < c + |blobs| ==> k != TableKey(j)
    ensures var m' := SaveAll(m, blobs, c); (k in m' <==> k in m) && (k in m ==> m'[k] == m[k])
    decreases |blobs|
  {
    if blobs != [] {
      assert k != TableKey(c);
      SaveAllUntouched(m[TableKey(c) := blobs[0]], blobs[1..], c + 1, k);
    }
  }

  lemma {:induction false} SaveAllWritten(m: map<string, Blob>, blobs: seq<Blob>, c: nat, j: nat)
    requires c <= j < c + |blobs|
    ensures var m' := SaveAll(m, blobs, c); TableKey(j) in m' && m'[TableKey(j)] == blobs[j - c]
    decreases |blobs|
  {
    var m1 := m[TableKey(c) := blobs[0]];
    if j == c {
      forall i | c + 1 <= i < c + |blobs| ensures TableKey(c) != TableKey(i) {
        TableKeysDistinct(c, i);
      }
      SaveAllUntouched(m1, blobs[1..], c + 1, TableKey(c));
    } else {
      SaveAllWritten(m1, blobs[1..], c + 1, j);
    }
  }

  lemma ConvertedTail(uploads: seq<Blob>, n: nat)
    requires 0 < n <= Leading(uploads)
    ensures Leading(uploads) == 1 + Leading(uploads[1..])
    ensures Converted(uploads, n)[1..] == Converted(uploads[1..], n - 1)
  {
    var rest := uploads[1..];
    forall i | 0 <= i < n - 1 ensures Converted(uploads, n)[1..][i] == Converted(rest, n - 1)[i] {
      assert rest[i] == uploads[i + 1];
    }
  }

  /** Saving uploads writes the CSV bodies of the leading workbooks, in
      order, and nothing else. */
  lemma {:induction false} IngestFromSaves(m: map<string, Blob>, uploads: seq<Blob>, c: nat)
    ensures IngestFrom(m, uploads, c).0 == SaveAll(m, Converted(uploads, Leading(uploads)), c)
    decreases |uploads|
  {
    var n := Leading(uploads);
    if n > 0 {
      var cs := Converted(uploads, n);
      ConvertedTail(uploads, n);
      IngestFromSaves(m[TableKey(c) := cs[0]], uploads[1..], c + 1);
    }
  }

  lemma IngestFromUntouched(m: map<string, Blob>, uploads: seq<Blob>, c: nat, k: string)
    requires forall j :: c <= j < c + Leading(uploads) ==> k != TableKey(j)
    ensures var m' := IngestFrom(m, uploads, c).0; (k in m' <==> k in m) && (k in m ==> m'[k] == m[k])
  {
    IngestFromSaves(m, uploads, c);
    SaveAllUntouched(m, Converted(uploads, Leading(uploads)), c, k);
  }

  /** Saving competitor uploads that all convert writes `table_1` ...
      `table_n` from them, in order, and no other key. */
  lemma IngestFromAll(m: map<string, Blob>, uploads: seq<Blob>)
    requires Leading(uploads) == |uploads|
    ensures var m' := IngestFrom(m, uploads, 1).0;
      && (forall i :: 1 <= i <= |uploads| ==>
            TableKey(i) in m' && m'[TableKey(i)] == ConvertToCsv(uploads[i - 1]).value)
      && (forall k :: (forall i :: 1 <= i <= |uploads| ==> k != TableKey(i)) ==>
            (k in m' <==> k in m) && (k in m ==> m'[k] == m[k]))
  {
    IngestFromAllWritten(m, uploads);
    IngestFromAllUntouched(m, uploads);
  }

  lemma IngestFromAllWritten(m: map<string, Blob>, uploads: seq<Blob>)
    requires Leading(uploads) == |uploads|
    ensures var m' := IngestFrom(m, uploads, 1).0;
      forall i :: 1 <= i <= |uploads| ==>
        TableKey(i) in m' && m'[TableKey(i)] == ConvertToCsv(uploads[i - 1]).value
  {
    var cs := Converted(uploads, |uploads|);
    IngestFromSaves(m, uploads, 1);
    forall i | 1 <= i <= |uploads|
      ensures TableKey(i) in SaveAll(m, cs, 1) && SaveAll(m, cs, 1)[TableKey(i)] == ConvertToCsv(uploads[i - 1]).value
    {
      SaveAllWritten(m, cs, 1, i);
    }
  }

  lemma IngestFromAllUntouched(m: map<string, Blob>, uploads: seq<Blob>)
    requires Leading(uploads) == |uploads|
    ensures var m' := IngestFrom(m, uploads, 1).0;
      forall k :: (forall i :: 1 <= i <= |uploads| ==> k != TableKey(i)) ==>
        (k in m' <==> k in m) && (k in m ==> m'[k] == m[k])
  {
    var m' := IngestFrom(m, uploads, 1).0;
    forall k | forall i :: 1 <= i <= |uploads| ==> k != TableKey(i)
      ensures (k in m' <==> k in m) && (k in m ==> m'[k] == m[k])
    {
      IngestFromUntouched(m, uploads, 1, k);
    }
  }

  /** Ingestion writes `temp_csv/my_shop.csv` from the primary upload and
      `temp_csv/table_<i>.csv` from the i-th competitor upload, and no other
      key; it succeeds exactly when every upload is a workbook. */
  lemma IngestWrites(m: map<string, Blob>, primary: Blob, uploads: seq<Blob>)
    ensures var r := Ingest(m, primary, uploads);
      && (r.1 == Pass <==> primary.Xlsx? && forall i :: 0 <= i < |uploads| ==> uploads[i].Xlsx?)
      && (r.1 == Pass ==>
            && MyShopKey in r.0 && r.0[MyShopKey] == ConvertToCsv(primary).value
            && (forall i :: 1 <= i <= |uploads| ==>
                  TableKey(i) in r.0 && r.0[TableKey(i)] == ConvertToCsv(uploads[i - 1]).value)
            && (forall k :: k != MyShopKey && (forall i :: 1 <= i <= |uploads| ==> k != TableKey(i)) ==>
                  (k in r.0 <==> k in m) && (k in m ==> r.0[k] == m[k])))
  {
    if primary.Xlsx? {
      var m1 := m[MyShopKey := ConvertToCsv(primary).value];
      IngestFromOutcome(m1, uploads, 1);
      if Leading(uploads) == |uploads| {
        IngestFromAll(m1, uploads);
        forall i | 1 <= i <= |uploads| ensures TableKey(i) != MyShopKey {
          TableKeysDistinct(i, i);
        }
      }
    } else {
      IngestFromOutcome(m, uploads, 1);
    }
  }

  // ------------------------------------------------------------------ merge

  /** The text after a key's first `/` up to the next one. */
  function UpToSlash(s: string): (r: string)
    ensures '/' !in r
  {
    if s == [] || s[0] == '/' then [] else [s[0]] + UpToSlash(s[1..])
  }

  /** `key.split('/')[1]`; None where Python raises IndexError (no `/`). */
  function SecondSegment(key: string): Option<string>
  {
    if key == [] then None
    else if key[0] == '/' then Some(UpToSlash(key[1..]))
    else SecondSegment(key[1..])
  }

  lemma {:induction false} UpToSlashOfPlain(s: string, rest: string)
    requires '/' !in s && (rest == [] || rest[0] == '/')
    ensures UpToSlash(s + rest) == s
  {
    if s != [] {
      assert (s + rest)[1..] == s[1..] + rest;
      UpToSlashOfPlain(s[1..], rest);
    }
  }

  lemma {:induction false} SecondSegmentAfter(head: string, rest: string)
    requires '/' !in head
    ensures SecondSegment(head + "/" + rest) == Some(UpToSlash(rest))
  {
    if head != [] {
      assert (head + "/" + rest)[1..] == head[1..] + "/" + rest;
      SecondSegmentAfter(head[1..], rest);
    } else {
      assert ("/" + rest)[1..] == rest;
    }
  }

  /** A key `temp_csv/<file>` with no `/` in `<file>` names `<file>`. */
  lemma SecondSegmentOfTempKey(file: string)
    requires '/' !in file
    ensures SecondSegment(TempPrefix + file) == Some(file)
  {
    assert TempPrefix + file == "temp_csv" + "/" + file;
    SecondSegmentAfter("temp_csv", file);
    UpToSlashOfPlain(file, []);
    assert file + [] == file;
  }

  /** The frames read from the listed keys other than `my_shop.csv`, in
      listing order; the first key that fails makes the whole read fail. */
  function FramesOf(m: map<string, Blob>, keys: seq<string>): (r: Result<seq<Frame>>)
    ensures r.Ok? ==> |r.value| <= |keys|
  {
    if keys == [] then Ok([])
    else
      var frames :- FramesOf(m, keys[..|keys| - 1]);
      var key := keys[|keys| - 1];
      match SecondSegment(key)
      case None => Err(NoSecondSegment(key))
      case Some(file) =>
        if file == "my_shop.csv" then Ok(frames)
        else if key !in m then Err(NoSuchKey(key))
        else
          var t :- ReadCsv(m[key]);
          Ok(frames + [t])
  }

  lemma {:induction false} FramesOfFailurePersists(m: map<string, Blob>, keys: seq<string>, i: nat)
    requires i <= |keys| && FramesOf(m, keys[..i]).Err?
    ensures FramesOf(m, keys) == FramesOf(m, keys[..i])
    decreases |keys| - i
  {
    if i < |keys| {
      assert keys[..i + 1][..i] == keys[..i];
      FramesOfFailurePersists(m, keys, i + 1);
    } else {
      assert keys[..i] == keys;
    }
  }

  /** How many of `keys` are read as frames: all but `my_shop.csv`. */
  function KeptCount(keys: seq<string>): nat
  {
    if keys == [] then 0
    else KeptCount(keys[..|keys| - 1]) + if SecondSegment(keys[|keys| - 1]) == Some("my_shop.csv") then 0 else 1
  }

  /** A successful read yields one frame per listed key other than
      `my_shop.csv`, in listing order: the key at position `i` is stored and
      its frame is the one after the frames of the kept keys before it. */
  lemma {:induction false} FramesOfInOrder(m: map<string, Blob>, keys: seq<string>, i: nat)
    requires FramesOf(m, keys).Ok?
    ensures |FramesOf(m, keys).value| == KeptCount(keys)
    ensures i < |keys| && SecondSegment(keys[i]) != Some("my_shop.csv") ==>
      && keys[i] in m && ReadCsv(m[keys[i]]).Ok?
      && KeptCount(keys[..i]) < KeptCount(keys)
      && FramesOf(m, keys).value[KeptCount(keys[..i])] == ReadCsv(m[keys[i]]).value
  {
    if keys != [] {
      var n := |keys| - 1;
      var init := keys[..n];
      FramesOfInOrder(m, init, i);
      if i < n {
        assert init[..i] == keys[..i] && init[i] == keys[i];
      } else if i == n {
        assert init == keys[..i];
      }
    }
  }

  /** Lines 60-69: reads every listed table except `my_shop.csv` into
      `frames`, in listing order. */
  method LoadFrames(bucket: Bucket, keys: seq<string>) returns (r: Result<seq<Frame>>)
    ensures r == FramesOf(bucket.objects, keys)
    ensures r.Ok? ==> |r.value| <= |keys|
  {
    var frames: seq<Frame> := [];
    var i := 0;
    while i < |keys|
      invariant 0 <= i <= |keys|
      invariant FramesOf(bucket.objects, keys[..i]) == Ok(frames)
    {
      assert keys[..i + 1][..i] == keys[..i];
      var key := keys[i];
      var file := SecondSegment(key);
      if file.None? {
        FramesOfFailurePersists(bucket.objects, keys, i + 1);
        return Err(NoSecondSegment(key));
      }
      if file.value != "my_shop.csv" {
        var body := bucket.Get(key);
        if body.Err? {
          FramesOfFailurePersists(bucket.objects, keys, i + 1);
          return Err(body.error);
        }
        var t := ReadCsv(body.value);
        if t.Err? {
          FramesOfFailurePersists(bucket.objects, keys, i + 1);
          return Err(t.error);
        }
        frames := frames + [t.value];
      }
      i := i + 1;
    }
    assert keys[..i] == keys;
    r := Ok(frames);
  }

  /** Lines 71-73: the concatenation without the `Tag Occurrences` column. */
  function Projected(frames: seq<Frame>): (r: Result<Frame>)
    ensures frames == [] ==> r == Err(NoObjectsToConcatenate)
    ensures frames != [] ==>
      (r.Err? <==> forall i :: 0 <= i < |frames| ==> Text(TagOccurrences) !in frames[i].header)
    ensures frames != [] && r.Err? ==> r.error == MissingColumn(TagOccurrences)
    ensures r.Ok? ==> Text(TagOccurrences) !in r.value.header
    ensures r.Ok? ==>
      frames != [] && r.value.header == Without(Concat.UnionHeader(frames), Text(TagOccurrences))
    ensures r.Ok? ==> Without(frames[0].header, Text(TagOccurrences)) <= r.value.header
    ensures r.Ok? ==> |r.value.rows| == Concat.RowCount(frames)
  {
    var all :- Concat.ConcatFrames(frames);
    var a := frames[0].header;
    Concat.UnionHeaderLabels(frames);
    assert all.header == a + all.header[|a|..];
    WithoutAppend(a, all.header[|a|..], Text(TagOccurrences));
    DeleteColumn(all, TagOccurrences)
  }

  /** Lines 71-75: concatenate, drop `Tag Occurrences`, drop duplicate rows. */
  function MergeFrames(frames: seq<Frame>): (r: Result<Frame>)
    ensures r.Err? <==> Projected(frames).Err?
    ensures r.Err? ==> r.error == Projected(frames).error
    ensures r.Ok? ==> r.value.header == Projected(frames).value.header
  {
    var p :- Projected(frames);
    var rows := Dedup.DropDuplicates(p.rows);
    assert forall i :: 0 <= i < |rows| ==> |rows[i]| == |p.header| by {
      forall i | 0 <= i < |rows| ensures |rows[i]| == |p.header| {
        assert rows[i] in p.rows;
        var k :| 0 <= k < |p.rows| && p.rows[k] == rows[i];
      }
    }
    Ok(Table(p.header, rows))
  }

  /** The joined table holds no two equal rows; every row of the projected
      concatenation equals one of its rows and each of its rows is one of
      those; its rows keep the order of their first occurrences. */
  lemma JoinedRows(frames: seq<Frame>, i: nat, j: nat)
    ensures MergeFrames(frames).Ok? ==>
      var p := Projected(frames).value.rows; var rows := MergeFrames(frames).value.rows;
      && Dedup.NoDuplicates(rows)
      && (forall x :: x in rows <==> x in p)
      && (i < j < |rows| ==> Dedup.FirstIndex(p, rows[i]) < Dedup.FirstIndex(p, rows[j]))
  {
    if MergeFrames(frames).Err? {
      return;
    }
    var p := Projected(frames).value.rows;
    var rows := Dedup.DropDuplicates(p);
    if i < j < |rows| {
      Dedup.DropDuplicatesKeepsFirstOrder(p, i, j);
    }
  }

  /** The store and outcome of `join_tables_and_save_to_aws`. */
  ghost function JoinOutcome(m: map<string, Blob>): (map<string, Blob>, Outcome)
  {
    var keys := Listing(m, TempPrefix);
    if keys == [] then (m, Fail(NoListingContents))
    else
      match FramesOf(m, keys)
      case Err(e) => (m, Fail(e))
      case Ok(frames) =>
        match MergeFrames(frames)
        case Err(e) => (m, Fail(e))
        case Ok(t) => (m[JoinedKey := WriteCsv(t, true)], Pass)
  }

  /** `join_tables_and_save_to_aws`: merges every listed `temp_csv/` table but
      `my_shop.csv` into `temp_csv/joined_table.csv`. */
  method JoinTablesAndSaveToAws(bucket: Bucket) returns (r: Outcome)
    modifies bucket
    ensures (bucket.objects, r) == JoinOutcome(old(bucket.objects))
  {
    var keys := bucket.ListObjects(TempPrefix);
    if keys == [] {
      return Fail(NoListingContents);
    }
    var frames := LoadFrames(bucket, keys);
    if frames.Err? {
      return Fail(frames.error);
    }
    var joined := MergeFrames(frames.value);
    if joined.Err? {
      return Fail(joined.error);
    }
    SaveCsvToAws(bucket, WriteCsv(joined.value, true), "joined_table");
    r := Pass;
  }

  /** Merging writes only `temp_csv/joined_table.csv`, and what it writes
      reads back as the merged table. */
  lemma JoinWritesJoinedTable(m: map<string, Blob>)
    ensures JoinOutcome(m).1 == Pass ==>
      var m' := JoinOutcome(m).0;
      && JoinedKey in m'
      && (forall k :: k != JoinedKey ==> (k in m' <==> k in m) && (k in m ==> m'[k] == m[k]))
      && FramesOf(m, Listing(m, TempPrefix)).Ok?
      && ReadCsv(m'[JoinedKey]) == MergeFrames(FramesOf(m, Listing(m, TempPrefix)).value)
  {
    if JoinOutcome(m).1 != Pass {
      return;
    }
    var frames := FramesOf(m, Listing(m, TempPrefix)).value;
    CsvRoundTrip(MergeFrames(frames).value);
  }

  /** Keys that are all `my_shop.csv` are read as no frames at all. */
  lemma {:induction false} FramesOfOnlyPrimary(m: map<string, Blob>, keys: seq<string>)
    requires KeptCount(keys) == 0
    ensures FramesOf(m, keys) == Ok([])
  {
    if keys != [] {
      FramesOfOnlyPrimary(m, keys[..|keys| - 1]);
    }
  }

  /** With no competitor table listed, the concatenation fails and
      `joined_table.csv` is not written; no failing merge changes the store. */
  lemma JoinWithoutCompetitors(m: map<string, Blob>)
    ensures JoinOutcome(m).1.Fail? ==> JoinOutcome(m).0 == m
    ensures var keys := Listing(m, TempPrefix);
      keys != [] && KeptCount(keys) == 0 ==> JoinOutcome(m) == (m, Fail(NoObjectsToConcatenate))
  {
    var keys := Listing(m, TempPrefix);
    if keys != [] && KeptCount(keys) == 0 {
      FramesOfOnlyPrimary(m, keys);
    }
  }

  /** Every listed key is stored and lies under `temp_csv/`, so it has a
      second path segment and `get_object` finds it: reading the listed
      tables fails only inside `read_csv`. */
  lemma {:induction false} FramesOfListedFailure(m: map<string, Blob>, keys: seq<string>)
    requires forall i :: 0 <= i < |keys| ==> keys[i] in m && TempPrefix <= keys[i]
    ensures FramesOf(m, keys).Err? ==>
      FramesOf(m, keys).error in {UnsupportedFormat, EmptyData, TooManyFields}
  {
    if keys != [] {
      var n := |keys| - 1;
      var key := keys[n];
      FramesOfListedFailure(m, keys[..n]);
      assert key == "temp_csv" + "/" + key[|TempPrefix|..];
      SecondSegmentAfter("temp_csv", key[|TempPrefix|..]);
    }
  }

  /** `join_tables_and_save_to_aws` fails only for an empty listing, a table
      `read_csv` refuses, no competitor table, or a missing
      `Tag Occurrences` column. */
  lemma JoinFailureCauses(m: map<string, Blob>)
    ensures JoinOutcome(m).1.Fail? ==>
      JoinOutcome(m).1.error in {NoListingContents, UnsupportedFormat, EmptyData, TooManyFields,
                                 NoObjectsToConcatenate, MissingColumn(TagOccurrences)}
  {
    var keys := Listing(m, TempPrefix);
    var sorted := SortedKeys(UnderPrefix(m, TempPrefix));
    assert keys <= sorted;
    forall i | 0 <= i < |keys| ensures keys[i] in m && TempPrefix <= keys[i] {
      assert keys[i] == sorted[i] && sorted[i] in sorted;
      assert keys[i] in UnderPrefix(m, TempPrefix);
    }
    FramesOfListedFailure(m, keys);
  }

  // ---------------------------------------------------------- diff and rank

  /** Lines 32-40 on the two stored bodies: the joined rows whose tag the
      primary table lacks, sorted by `Average Searches (US)`, descending. */
  function UniqueTagsTable(myShop: Blob, joined: Blob): (r: Result<Frame>)
    ensures ReadCsv(myShop).Ok? && Text(TagOccurrences) !in ReadCsv(myShop).value.header ==>
      r == Err(MissingColumn(TagOccurrences))
    ensures r.Ok? ==> ReadCsv(joined).Ok? && r.value.header == ReadCsv(joined).value.header
  {
    var mine :- ReadCsv(myShop);
    var mine' :- DeleteColumn(mine, TagOccurrences);
    var table :- ReadCsv(joined);
    var unique :- Ranking.UniqueRows(table, mine');
    Ranking.SortByRank(unique)
  }

  /** The result holds exactly the joined rows whose tag is absent from the
      primary table's `Tags`, each as often as in the joined table, ordered
      by non-increasing search volume with missing volumes last. */
  lemma UniqueTagsRanked(myShop: Blob, joined: Blob)
    ensures UniqueTagsTable(myShop, joined).Ok? ==>
      var mine := DeleteColumn(ReadCsv(myShop).value, TagOccurrences).value;
      var table := ReadCsv(joined).value;
      var r := UniqueTagsTable(myShop, joined).value;
      && Text(Ranking.TagsColumn) in table.header && Text(Ranking.TagsColumn) in mine.header
      && multiset(r.rows) == multiset(Ranking.AntiJoin(table, mine))
      && Ranking.RankedDesc(r.rows, IndexOf(r.header, Text(Ranking.RankColumn)))
      && Ranking.Unranked(r.rows, IndexOf(r.header, Text(Ranking.RankColumn)))
         == Ranking.Unranked(Ranking.AntiJoin(table, mine), IndexOf(r.header, Text(Ranking.RankColumn)))
      && (forall row :: row in r.rows <==>
            (row in table.rows &&
             row[IndexOf(table.header, Text(Ranking.TagsColumn))] !in
               Ranking.Column(mine, IndexOf(mine.header, Text(Ranking.TagsColumn)))))
  {
    if UniqueTagsTable(myShop, joined).Err? {
      return;
    }
    var mine := DeleteColumn(ReadCsv(myShop).value, TagOccurrences).value;
    var table := ReadCsv(joined).value;
    Ranking.UniqueRowsIsAntiJoin(table, mine);
    var r := UniqueTagsTable(myShop, joined).value;
    forall row ensures row in r.rows <==> row in Ranking.AntiJoin(table, mine) {
      assert row in r.rows <==> row in multiset(r.rows);
      assert row in Ranking.AntiJoin(table, mine) <==> row in multiset(Ranking.AntiJoin(table, mine));
    }
  }

  /** The store and outcome of `get_unique_tags` run at local time `now`. */
  function UniqueTagsOutcome(m: map<string, Blob>, now: Timestamp): (map<string, Blob>, Result<string>)
  {
    if MyShopKey !in m then (m, Err(NoSuchKey(MyShopKey)))
    else if JoinedKey !in m then (m, Err(NoSuchKey(JoinedKey)))
    else
      match UniqueTagsTable(m[MyShopKey], m[JoinedKey])
      case Err(e) => (m, Err(e))
      case Ok(t) => (m[ResultKey(now) := WriteExcel(t)], Ok(ResultKey(now)))
  }

  /** `get_unique_tags`: ranks the competitor tags the primary shop lacks,
      stores them as a workbook under the key for `now` and returns that key. */
  method GetUniqueTags(bucket: Bucket, now: Timestamp) returns (r: Result<string>)
    modifies bucket
    ensures (bucket.objects, r) == UniqueTagsOutcome(old(bucket.objects), now)
  {
    var myShop := bucket.Get(MyShopKey);
    if myShop.Err? {
      return Err(myShop.error);
    }
    var joined := bucket.Get(JoinedKey);
    if joined.Err? {
      return Err(joined.error);
    }
    var sorted := UniqueTagsTable(myShop.value, joined.value);
    if sorted.Err? {
      return Err(sorted.error);
    }
    var path := SaveXlsxToAws(bucket, WriteExcel(sorted.value), now);
    r := Ok(path);
  }

  /** A successful run stores one workbook, under the returned key, which
      lies under `result/` and not `temp_csv/`; reading it back gives the
      ranked table. Nothing else changes. */
  lemma UniqueTagsStored(m: map<string, Blob>, now: Timestamp)
    ensures UniqueTagsOutcome(m, now).1.Ok? ==>
      var (m', key) := (UniqueTagsOutcome(m, now).0, UniqueTagsOutcome(m, now).1.value);
      && key == ResultKey(now) && ResultPrefix <= key && !(TempPrefix <= key)
      && key in m'
      && ReadExcel(m'[key]) == UniqueTagsTable(m[MyShopKey], m[JoinedKey])
      && (forall k :: k != key ==> (k in m' <==> k in m) && (k in m ==> m'[k] == m[k]))
  {
    if UniqueTagsOutcome(m, now).1.Err? {
      return;
    }
    ResultKeyProperties(now, now);
    ExcelRoundTrip(UniqueTagsTable(m[MyShopKey], m[JoinedKey]).value);
  }

  // ---------------------------------------------------------------- cleanup

  /** The keys of a listing, as a set. */
  function KeySet(keys: seq<string>): set<string>
  {
    set k | k in keys
  }

  /** The store and outcome of `delete_all_temporary_csv_files`. */
  ghost function CleanupOutcome(m: map<string, Blob>): (map<string, Blob>, Outcome)
  {
    var keys := Listing(m, TempPrefix);
    if keys == [] then (m, Fail(NoListingContents)) else (m - KeySet(keys), Pass)
  }

  /** `delete_all_temporary_csv_files`: deletes each listed `temp_csv/` key;
      with nothing to list, the missing 'Contents' raises KeyError. */
  method DeleteAllTemporaryCsvFiles(bucket: Bucket) returns (r: Outcome)
    modifies bucket
    ensures (bucket.objects, r) == CleanupOutcome(old(bucket.objects))
  {
    var keys := bucket.ListObjects(TempPrefix);
    if keys == [] {
      return Fail(NoListingContents);
    }
    var i := 0;
    ghost var deleted: set<string> := {};
    while i < |keys|
      invariant 0 <= i <= |keys| && deleted == KeySet(keys[..i])
      invariant bucket.objects == old(bucket.objects) - deleted
    {
      assert KeySet(keys[..i + 1]) == deleted + {keys[i]} by {
        assert keys[..i + 1] == keys[..i] + [keys[i]];
      }
      RemoveOneMore(old(bucket.objects), deleted, keys[i]);
      bucket.Delete(keys[i]);
      deleted := deleted + {keys[i]};
      i := i + 1;
    }
    assert keys[..i] == keys;
    r := Pass;
  }

  lemma RemoveOneMore(m: map<string, Blob>, s: set<string>, k: string)
    ensures (m - s) - {k} == m - (s + {k})
  {
  }

  /** Cleanup fails exactly when no key lies under `temp_csv/`; with at most
      one page of such keys it leaves none, and it never touches a key
      outside `temp_csv/`. */
  lemma CleanupClears(m: map<string, Blob>)
    ensures CleanupOutcome(m).1.Fail? <==> UnderPrefix(m, TempPrefix) == {}
    ensures |UnderPrefix(m, TempPrefix)| <= MaxKeys ==> UnderPrefix(CleanupOutcome(m).0, TempPrefix) == {}
    ensures forall k :: !(TempPrefix <= k) ==>
      (k in CleanupOutcome(m).0 <==> k in m) && (k in m ==> CleanupOutcome(m).0[k] == m[k])
  {
    var under := UnderPrefix(m, TempPrefix);
    var sorted := SortedKeys(under);
    var keys := Listing(m, TempPrefix);
    if under != {} {
      var k :| k in under;
      assert k in sorted;
      assert keys != [];
    }
    if |under| <= MaxKeys {
      assert |sorted| <= MaxKeys by {
        assert KeySet(sorted) == under;
        SortedDistinctSize(sorted);
      }
      assert keys == sorted;
    }
    forall k | k in keys ensures TempPrefix <= k {
      assert k in sorted;
    }
  }

  lemma SortedDistinctSize(s: seq<string>)
    requires StrictlySorted(s)
    ensures |KeySet(s)| == |s|
  {
    if s != [] {
      SortedTail(s);
      SortedDistinctSize(s[1..]);
      assert KeySet(s) == KeySet(s[1..]) + {s[0]};
    }
  }

  // ----------------------------------------------------------------- driver

  /** Clearing `temp_csv/` before ingesting (with at most one page of old
      temporary keys) leaves exactly the primary's key and the competitor
      keys `table_1` ... `table_n` under `temp_csv/` for the merge to list. */
  lemma FreshNamespace(m: map<string, Blob>, primary: Blob, uploads: seq<Blob>)
    requires |UnderPrefix(m, TempPrefix)| <= MaxKeys
    requires Ingest(CleanupOutcome(m).0, primary, uploads).1 == Pass
    ensures UnderPrefix(Ingest(CleanupOutcome(m).0, primary, uploads).0, TempPrefix)
      == {MyShopKey} + (set i | 1 <= i <= |uploads| :: TableKey(i))
  {
    var cleared := CleanupOutcome(m).0;
    var ingested := Ingest(cleared, primary, uploads).0;
    CleanupClears(m);
    IngestWrites(cleared, primary, uploads);
    var tables := set i | 1 <= i <= |uploads| :: TableKey(i);
    assert forall k :: k in UnderPrefix(ingested, TempPrefix) ==> k in {MyShopKey} + tables;
    forall k | k in {MyShopKey} + tables ensures k in UnderPrefix(ingested, TempPrefix) {
      if k != MyShopKey {
        var i :| 1 <= i <= |uploads| && k == TableKey(i);
      }
    }
  }

  lemma {:induction false} LexLessCommonPrefix(p: string, a: string, b: string)
    requires LexLess(a, b)
    ensures LexLess(p + a, p + b)
  {
    if p == [] {
      assert p + a == a && p + b == b;
    } else {
      assert (p + a)[1..] == p[1..] + a && (p + b)[1..] == p[1..] + b;
      LexLessCommonPrefix(p[1..], a, b);
    }
  }

  /** The listing orders competitor keys as text, not by number:
      `table_10.csv` comes before `table_2.csv`, so from ten competitors on
      the frames are not concatenated in upload order. */
  lemma ListingOrderIsTextual()
    ensures LexLess(TableKey(10), TableKey(2))
  {
    assert NatToString(10) == "10" && NatToString(2) == "2";
    assert TableKey(10) == "temp_csv/table_" + "10.csv";
    assert TableKey(2) == "temp_csv/table_" + "2.csv";
    LexLessCommonPrefix("temp_csv/table_", "10.csv", "2.csv");
  }

  /** The upload route of main.py (lines 17-38): clear `temp_csv/` ignoring
      any error, ingest the uploads, then merge the competitor tables. */
  method Upload(bucket: Bucket, primary: Blob, uploads: seq<Blob>) returns (r: Outcome)
    modifies bucket
    ensures var cleared := CleanupOutcome(old(bucket.objects)).0;
      var ingested := Ingest(cleared, primary, uploads);
      (bucket.objects, r) == if ingested.1.Fail? then ingested else JoinOutcome(ingested.0)
  {
    var _ := DeleteAllTemporaryCsvFiles(bucket);
    r := ConvertToCsvAndSaveToAws(bucket, primary, uploads);
    if r.Fail? {
      return;
    }
    r := JoinTablesAndSaveToAws(bucket);
  }
}
