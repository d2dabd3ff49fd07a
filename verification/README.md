# Etsy tag analyzer: the tag-reconciliation pipeline in Dafny

The analyzer compares the search tags of one's own Etsy shop with those of
competitor shops. It works in four steps over an S3 bucket:

1. **Ingestion** (`convert_to_csv_and_save_to_aws`, `convert_to_csv`,
   `save_csv_to_aws`). Each uploaded workbook is converted to CSV and stored:
   the primary shop's under `temp_csv/my_shop.csv`, the competitors' under
   `temp_csv/table_1.csv`, `temp_csv/table_2.csv`, ... in upload order.
2. **Merge** (`join_tables_and_save_to_aws`). Every table listed under
   `temp_csv/` except `my_shop.csv` is read. The tables are concatenated, the
   `Tag Occurrences` column is deleted and duplicate rows are dropped. The
   result is stored as `temp_csv/joined_table.csv`.
3. **Diff and rank** (`get_unique_tags`, `save_xlsx_to_aws`). This step keeps
   the joined rows whose `Tags` value the primary table lacks. It sorts them by
   `Average Searches (US)`, descending, and stores them as the workbook
   `result/result_<DD_MM_YYYY__HH_MM_SS>.xlsx`. It returns that key.
4. **Cleanup** (`delete_all_temporary_csv_files`). Every key under
   `temp_csv/` is deleted.

The model has seven modules:

- `Frame` (frame.dfy): cells, rows, rectangular tables (`Frame`), the
  exceptions the pipeline can raise, and `del df[name]`.
- `Formats` (formats.dfy): workbooks and CSV bodies as grids of cells. It
  keeps the one format detail the pipeline depends on. `convert_to_csv`
  writes without the header, so a later `read_csv` takes the first data row
  as the header.
- `Concat`, `Dedup` and `Ranking` (concat.dfy, dedup.dfy, ranking.dfy): the
  pandas steps as pure functions. These are `pd.concat`, `drop_duplicates`,
  the inner join followed by the `isin` filter, and `sort_values`.
- `Store` (store.dfy): the bucket, a class whose `objects` map the methods
  update. `list_objects` returns one page of at most 1000 keys, in ascending
  order.
- `Naming` (naming.dfy): the object keys and the timestamp format.
- `Services` (services.dfy): the seven pipeline functions. The steps that
  change the bucket are methods. Each one is proved equal to a function of
  the old bucket, and lemmas state what those functions write, read and
  leave alone. `Upload` is the upload route of main.py: it runs cleanup,
  ingestion and merge in that order.

The clock is a parameter. `now` stands for `datetime.now()` (local time).

### Behaviour of the code worth knowing

- The prefixes are `temp_csv/` and `result/`.
- The timestamp is local time.
- The header row is dropped for the primary sheet as well as for the
  competitor sheets.
- A missing `Tag Occurrences` column raises KeyError, both in the merge and
  in the primary table.
- Concatenating tables with different columns succeeds. Every column of any
  table is kept, and an absent cell is empty (NaN).
- The sort is pandas' default sort, which is unstable. Missing values come
  last.
- The merge reads keys in listing order, which compares keys as text. So
  `table_10.csv` comes before `table_2.csv`.
- An empty listing has no `Contents` entry, so it raises KeyError.
- Merging with no competitor table raises "No objects to concatenate".
- When the first data line of a CSV body has more fields than its header,
  `read_csv` takes the surplus leading fields of every data line as an
  implicit index. The merge and the diff drop that index.

## Model

| member | source | states |
|---|---|---|
| `Frame.DeleteColumn` | services.py:73 | `del t[name]` fails with KeyError exactly when no column is labelled `name`; otherwise the header is the other labels in their original order (`Without`), and the row count is unchanged |
| `Frame.WithoutAppend` | services.py:73 | removing a label from two header pieces joined is removing it from each piece, so the labels kept stay in order |
| `Frame.DeleteColumnKeepsCells` | services.py:73 | after the delete, each row holds the same (label, cell) pairs, in order, minus those of the deleted column |
| `Formats.ReadExcel` | services.py:107 | `read_excel` refuses a non-workbook; an empty sheet gives an empty table; otherwise the sheet's first row becomes the header and the other rows, in order, the data, all filled out to the widest row |
| `Formats.ReadExcelFillsMissing` | services.py:107 | the cells that fill out a short sheet row, header or data, are empty (NaN) |
| `Formats.IndexWidth` | services.py:34 | the implicit index has as many fields as the first data line has beyond the header, and none when it has no more |
| `Formats.ReadCsv` | services.py:32-34 | `read_csv` takes the first line as header; an empty body raises EmptyDataError; when the first data line is wider than the header, its surplus leading fields are an implicit index dropped from every data line; otherwise each data line keeps its cells; a data line wider than the first one (or than the header) raises a tokenizing error, and only then does the read fail |
| `Formats.ReadCsvFillsMissing` | services.py:32-34 | the cells that fill out a short data line, past its own fields, are empty (NaN) |
| `Formats.WriteCsv` | services.py:78 | `to_csv(index=None)` writes the header line, or none with `header=False` (as `convert_to_csv` does on services.py:110), then one line per row, the rows in order; `CsvRoundTrip` and `HeaderlessReload` read these bodies back |
| `Formats.WriteExcel` | services.py:44 | `to_excel(index=None, header=True)` writes the header row then the rows in order; `ExcelRoundTrip` reads it back |
| `Formats.CsvRoundTrip` | services.py:77-78 | a table written to CSV with its header reads back unchanged |
| `Formats.ExcelRoundTrip` | services.py:43-44 | a table written to a workbook with its header reads back unchanged |
| `Formats.HeaderlessReload` | services.py:110 | a table written with `header=False` reads back with its first data row as header; with no rows the body is unreadable |
| `Dedup.DropDuplicates` | services.py:75 | every surviving row is a row of the input, every input row survives as an equal row, and no two survivors are equal |
| `Dedup.DropDuplicatesKeepsFirstOrder` | services.py:75 | survivors keep the order of their first occurrences |
| `Dedup.DropDuplicatesOfDistinct` | services.py:75 | a table without repeated rows is left as it is |
| `Dedup.DropDuplicatesIdempotent` | services.py:75 | dropping duplicates twice equals dropping them once |
| `Dedup.DropDuplicatesAppend` | services.py:75 | dropping duplicates from `s + t` keeps the survivors of `s`, then the first occurrences of the elements of `t` that `s` lacks |
| `Dedup.Unseen` | services.py:71 | the elements of `t` kept are exactly those absent from `s` |
| `Dedup.UnionProperties` | services.py:71 | a label union starts with its first operand, adds each missing label once, holds exactly the labels of both, and adds nothing when the second operand has no new label |
| `Dedup.UnionKeepsFirstOrder` | services.py:71 | the labels a union adds come in order of first appearance |
| `Dedup.UnionAppend` | services.py:71 | uniting with `l`, then with `h`, equals uniting with `l + h`, so frame-by-frame union is the union over all later labels |
| `Concat.UnionHeader` | services.py:71 | the concatenation's labels are the first frame's labels, then the later frames' labels it lacks, each once, in order of first appearance (`Dedup.Union`) |
| `Concat.AddLabels` | services.py:71 | adding one frame's labels to the labels so far is the union with that header |
| `Concat.LaterLabels` | services.py:71 | the labels of the frames after the first are exactly those of some later frame |
| `Concat.UnionHeaderLabels` | services.py:71 | the labels start with the first frame's; the added labels are new and appear once each; they are exactly the labels of some frame; frames that share one header keep it |
| `Concat.UnionHeaderOrder` | services.py:71 | added labels come in the order in which they first appear in the later frames |
| `Concat.ConcatFrames` | services.py:71 | `pd.concat` fails exactly on an empty list; otherwise its header is the union header (`UnionHeader`, whose order `UnionHeaderLabels` and `UnionHeaderOrder` state) and its rows number the sum of the frames' rows |
| `Concat.ConcatCell` | services.py:71 | row `i` of frame `f` sits after all earlier frames' rows, with its own cell under each of its labels and an empty cell elsewhere |
| `Ranking.JoinKeysHas` | services.py:36 | a tag is in the inner join on `Tags` exactly when both tables have it |
| `Ranking.UniqueRows` | services.py:36-38 | join then `isin` filter fails with KeyError exactly when either table lacks `Tags`; the header is the joined table's |
| `Ranking.UniqueRowsIsAntiJoin` | services.py:36-38 | join plus `isin` negation equals the anti-join: a joined row survives if and only if the primary table has no row with its tag |
| `Ranking.SortDesc` | services.py:40 | the sorted rows are a permutation of the input, with ranks non-increasing and missing ranks last |
| `Ranking.InsertKeepsUnranked` | services.py:40 | inserting a row into sorted rows keeps the rows without a rank in the order they had with the new row in front |
| `Ranking.SortDescKeepsUnrankedOrder` | services.py:40 | the rows without a rank come out in their input order, as pandas appends missing values in their original positions' order |
| `Ranking.SortByRank` | services.py:40 | `sort_values` fails with KeyError exactly when the rank column is absent; otherwise it keeps the header, permutes the rows into descending rank order, and keeps the rows without a rank in their input order |
| `Store.Bucket.Put` | services.py:121-123 | `put_object` creates or replaces exactly one key |
| `Store.Bucket.Get` | services.py:28-30 | `get_object` returns the body under the key and fails with NoSuchKey when there is none |
| `Store.Bucket.Delete` | services.py:16 | `delete_object` removes exactly that key |
| `Store.Bucket.ListObjects` | services.py:13-14 | the listing holds keys under the prefix in strictly ascending order, at most 1000 of them, and all of them when there are no more than 1000 |
| `Store.SortedUnique` | services.py:62-63 | two ascending key listings with the same keys are equal, so the listing is determined by the bucket |
| `Naming.TableKeysDistinct` | services.py:97 | different counters give different `table_<i>` keys, and none equals `my_shop.csv` or `joined_table.csv` |
| `Naming.FormatTimestampRoundTrip` | services.py:133 | the `%d_%m_%Y__%H_%M_%S` text gives back every field of the time |
| `Naming.ResultKeyProperties` | services.py:133-134 | result keys for different seconds differ; each is 39 characters long, lies under `result/` and never under `temp_csv/` |
| `Services.SaveCsvToAws` | services.py:114-123 | stores the body under `temp_csv/<name>.csv` and changes nothing else |
| `Services.SaveXlsxToAws` | services.py:126-138 | stores the body under the `result/` key for `now`, changes nothing else, and returns that key |
| `Services.ConvertToCsv` | services.py:101-111 | fails on a non-workbook; an empty sheet gives an empty body; otherwise gives the sheet's rows after the first, in order, filled out to the widest row |
| `Services.ConvertToCsvFillsMissing` | services.py:107-110 | the cells that fill out a short data row of the sheet are written as empty fields |
| `Services.StoredUploadReload` | services.py:107-110 | a stored upload reads back with the sheet's second row as header and the rows after it as data, for the primary sheet too; a sheet with fewer than two rows cannot be read back |
| `Services.ConvertToCsvAndSaveToAws` | services.py:82-98 | the loop leaves the bucket and outcome given by the ingestion function, with the counter starting at 1 |
| `Services.IngestWrites` | services.py:90-98 | ingestion succeeds exactly when every upload is a workbook; it then writes `my_shop.csv` from the primary and `table_<i>.csv` from the i-th competitor, and no other key |
| `Services.SecondSegmentOfTempKey` | services.py:65 | `key.split('/')[1]` of `temp_csv/<file>` is `<file>` |
| `Services.LoadFrames` | services.py:60-69 | the loop reads the listed tables other than `my_shop.csv`; the first unreadable one makes the read fail |
| `Services.FramesOfInOrder` | services.py:60-69 | a successful read gives one frame per listed key other than `my_shop.csv`, in listing order, each the table stored under its key |
| `Services.Projected` | services.py:71-73 | the concatenation fails with no frames; the delete fails exactly when no frame has `Tag Occurrences`; otherwise the header is the union header without that column, so it starts with the first frame's labels minus that column, and the row count is the frames' total |
| `Services.MergeFrames` | services.py:71-75 | the merge fails exactly when concatenation or delete fails, and keeps the projected header |
| `Services.JoinedRows` | services.py:75 | the joined table has no two equal rows, has the same rows as the projected concatenation and keeps first-occurrence order |
| `Services.JoinTablesAndSaveToAws` | services.py:50-79 | the method leaves the bucket and outcome given by the merge function |
| `Services.JoinWritesJoinedTable` | services.py:77-79 | a successful merge writes only `joined_table.csv`, and that body reads back as the merged table of the listed frames |
| `Services.FramesOfOnlyPrimary` | services.py:62-69 | keys that are all `my_shop.csv` give no frames |
| `Services.JoinWithoutCompetitors` | services.py:62-71 | with only `my_shop.csv` listed, the merge raises "No objects to concatenate" and writes nothing; no failing merge changes the bucket |
| `Services.FramesOfListedFailure` | services.py:62-69 | listed `temp_csv/` keys always have a second path segment and are stored, so reading them fails only inside `read_csv` |
| `Services.JoinFailureCauses` | services.py:50-79 | the merge fails only on an empty listing, an unreadable table, no competitor table or a missing `Tag Occurrences` column |
| `Services.ListingOrderIsTextual` | services.py:62-63 | `table_10.csv` lists before `table_2.csv` |
| `Services.UniqueTagsTable` | services.py:32-40 | a readable primary table without `Tag Occurrences` raises KeyError; a result has the joined table's header |
| `Services.UniqueTagsRanked` | services.py:33-40 | the result is a permutation of the joined rows whose tag is absent from the primary table, contains exactly those rows, and is in descending rank order with missing ranks last, those without a rank in the order they had in the joined table |
| `Services.GetUniqueTags` | services.py:21-47 | the method leaves the bucket and returned key given by the diff-and-rank function |
| `Services.UniqueTagsStored` | services.py:42-47 | a success stores one workbook under the returned `result/` key, which reads back as the ranked table; nothing else changes |
| `Services.DeleteAllTemporaryCsvFiles` | services.py:8-18 | the loop deletes exactly the listed keys; an empty listing raises KeyError |
| `Services.CleanupClears` | services.py:13-16 | cleanup fails exactly when nothing is under `temp_csv/`; with at most one page it leaves nothing there; it never touches a key outside `temp_csv/` |
| `Services.FreshNamespace` | main.py:17-33 | when at most 1000 keys were under `temp_csv/`, after cleanup and a successful ingestion `temp_csv/` holds exactly `my_shop.csv` and `table_1.csv` ... `table_n.csv` |
| `Services.Upload` | main.py:17-38 | the upload route runs cleanup ignoring its failure, then ingestion, then the merge only if ingestion succeeded |

## Left out

- The S3 client, bucket name and credentials (settings.py) are not part of this model. The bucket is an in-memory map, and the `s3://` read on services.py:66 is a read of the same map.
- The byte formats of Excel and CSV are not modelled. Nor are quoting, encodings, pandas' type inference, or its renaming of duplicate and empty header labels (`x.1`, `Unnamed: 0`). Cells are text, integers or empty.
- Formats.ReadExcel: pandas' openpyxl reader drops the trailing empty cells of each row and the trailing all-empty rows before it fills rows out. The model does neither. So a sheet whose last row, or last columns, hold only empty cells reads with that row or those columns kept, and `Formats.ExcelRoundTrip` holds in pandas only for tables whose last row and last column are not all empty.
- `read_csv` skips blank lines, for example a one-column row whose only cell is empty. The model does not.
- Floating-point values in the ranking column are left out. In the model, a cell that is not an integer counts as a missing rank. In pandas, a text cell next to numbers makes `sort_values` raise TypeError, and a column of text only sorts as text. The model captures neither.
- Ranking.SortByRank: the order among rows of equal numeric rank is not stated, because pandas' default sort is not stable and promises none. Rows without a rank keep their input order, and that is stated.
- Services.CleanupClears: it does not say that cleanup empties `temp_csv/` when more than 1000 keys are under it, because one `list_objects` page holds at most 1000 and the code lists only once.
- Naming.FormatTimestamp: `%Y` is always four digits. Some C libraries write years before 1000 with fewer digits.
- Nothing says which frame is read first from `table_10.csv` on. `Services.ListingOrderIsTextual` only shows that listing order differs from upload order.
- `print` logging is left out. This includes the file name split on services.py:17, which cannot fail because every listed key contains `/`.
- The web routes of main.py are left out: request parsing, templates, the HTML table and the download URL. Also left out is that only TypeError is caught around ingestion and merge (main.py:40), since other exceptions reach Flask. `Upload` returns every failure as an outcome.
- Concurrent requests sharing the bucket are left out.
