/** The two file formats the pipeline stores, seen as grids of cells: an Excel
    workbook's first sheet and a CSV text. Only what decides which grid row
    becomes the header is modelled; bytes, quoting and type inference are not. */
module Formats {
  import opened Frame

  /** A stored or uploaded object: CSV lines, or the rows of an Excel sheet. */
  datatype Blob = Csv(lines: seq<Row>) | Xlsx(grid: seq<Row>)

  /** The width of the widest row. */
  function MaxWidth(g: seq<Row>): (w: nat)
    ensures forall i :: 0 <= i < |g| ==> |g[i]| <= w
    ensures g != [] ==> exists i :: 0 <= i < |g| && |g[i]| == w
  {
    if g == [] then 0
    else
      var w := MaxWidth(g[1..]);
      assert forall i :: 1 <= i < |g| ==> g[i] == g[1..][i - 1];
      if |g[0]| >= w then |g[0]| else w
  }

  /** A row filled out to `w` cells with empty cells. */
  function PadRow(r: Row, w: nat): (p: Row)
    requires |r| <= w
    ensures |p| == w && p[..|r|] == r
    ensures forall k :: |r| <= k < w ==> p[k] == Missing
  {
    r + seq(w - |r|, _ => Missing)
  }

  function PadRows(g: seq<Row>, w: nat): (p: seq<Row>)
    requires forall i :: 0 <= i < |g| ==> |g[i]| <= w
    ensures |p| == |g| && forall i :: 0 <= i < |p| ==> |p[i]| == w
  {
    seq(|g|, i requires 0 <= i < |g| => PadRow(g[i], w))
  }

  lemma PadRowsOfRect(g: seq<Row>, w: nat)
    requires forall i :: 0 <= i < |g| ==> |g[i]| == w
    ensures PadRows(g, w) == g
  {
    forall i | 0 <= i < |g| ensures PadRows(g, w)[i] == g[i] {
      assert PadRow(g[i], w) == g[i] + [];
    }
  }

  lemma DropNothing(g: seq<Row>)
    ensures DropLeading(g, 0) == g
  {
    assert forall i :: 0 <= i < |g| ==> g[i][0..] == g[i];
  }

  /** `pd.read_excel`: the sheet's first row becomes the header and the rest
      the data rows; short rows are filled out with empty cells. A body that
      is not a workbook is refused. */
  function ReadExcel(b: Blob): (r: Result<Frame>)
    ensures r.Err? <==> b.Csv?
    ensures r.Err? ==> r.error == UnsupportedFormat
    ensures b.Xlsx? && b.grid == [] ==> r == Ok(Table([], []))
    ensures b.Xlsx? && b.grid != [] ==> r.Ok? && |r.value.rows| == |b.grid| - 1
    ensures b.Xlsx? && b.grid != [] ==> |r.value.header| == MaxWidth(b.grid)
    ensures b.Xlsx? && b.grid != [] ==> r.value.header[..|b.grid[0]|] == b.grid[0]
    ensures b.Xlsx? && b.grid != [] ==>
      forall i :: 1 <= i < |b.grid| ==> r.value.rows[i - 1][..|b.grid[i]|] == b.grid[i]
  {
    match b
    case Csv(_) => Err(UnsupportedFormat)
    case Xlsx(g) =>
      if g == [] then Ok(Table([], []))
      else
        var p := PadRows(g, MaxWidth(g));
        Ok(Table(p[0], p[1..]))
  }

  /** The cells that fill out a short sheet row, in the header or in a data
      row, are empty. */
  lemma ReadExcelFillsMissing(b: Blob, i: nat, k: nat)
    requires b.Xlsx? && i < |b.grid| && |b.grid[i]| <= k < MaxWidth(b.grid)
    ensures var t := ReadExcel(b).value;
      (if i == 0 then t.header else t.rows[i - 1])[k] == Missing
  {
    var p := PadRows(b.grid, MaxWidth(b.grid));
    assert p[i] == PadRow(b.grid[i], MaxWidth(b.grid));
  }

  /** How many leading fields `read_csv` takes as an implicit index: as many
      as the first data line has beyond the header, if any. */
  function IndexWidth(lines: seq<Row>): (k: nat)
    requires lines != []
    ensures k > 0 <==> |lines| > 1 && |lines[1]| > |lines[0]|
    ensures k > 0 ==> |lines[0]| + k == |lines[1]|
  {
    if |lines| > 1 && |lines[1]| > |lines[0]| then |lines[1]| - |lines[0]| else 0
  }

  /** Every row without its first `k` cells. */
  function DropLeading(g: seq<Row>, k: nat): (p: seq<Row>)
    requires forall i :: 0 <= i < |g| ==> |g[i]| >= k
    ensures |p| == |g| && forall i :: 0 <= i < |p| ==> p[i] == g[i][k..]
  {
    seq(|g|, i requires 0 <= i < |g| => g[i][k..])
  }

  /** `pd.read_csv` with its default `header=0` and `index_col=None`: the
      first line becomes the header. When the first data line has more fields
      than the header, its surplus leading fields are an implicit index, so
      every data line is read as that many index fields followed by the
      columns; the index is not a column. Every data line is filled out with
      empty cells to the width of the first one (or of the header), and a
      line wider than that raises a tokenizing error. A body with no lines
      raises EmptyDataError. */
  function ReadCsv(b: Blob): (r: Result<Frame>)
    ensures b.Xlsx? ==> r == Err(UnsupportedFormat)
    ensures b.Csv? && b.lines == [] ==> r == Err(EmptyData)
    ensures b.Csv? && b.lines != [] && (|b.lines| == 1 || |b.lines[1]| <= |b.lines[0]|) ==>
      (r.Ok? <==> forall i :: 1 <= i < |b.lines| ==> |b.lines[i]| <= |b.lines[0]|)
    ensures b.Csv? && |b.lines| > 1 && |b.lines[1]| > |b.lines[0]| ==>
      (r.Ok? <==> forall i :: 2 <= i < |b.lines| ==> |b.lines[i]| <= |b.lines[1]|)
    ensures r.Err? && b.Csv? && b.lines != [] ==> r.error == TooManyFields
    ensures r.Ok? ==> r.value.header == b.lines[0] && |r.value.rows| == |b.lines| - 1
    ensures r.Ok? && IndexWidth(b.lines) == 0 ==>
      forall i :: 1 <= i < |b.lines| ==> r.value.rows[i - 1][..|b.lines[i]|] == b.lines[i]
    ensures r.Ok? && IndexWidth(b.lines) > 0 ==>
      var k := IndexWidth(b.lines);
      forall i :: 1 <= i < |b.lines| && |b.lines[i]| >= k ==>
        r.value.rows[i - 1][..|b.lines[i]| - k] == b.lines[i][k..]
  {
    match b
    case Xlsx(_) => Err(UnsupportedFormat)
    case Csv(lines) =>
      if lines == [] then Err(EmptyData)
      else
        var k := IndexWidth(lines);
        var w := |lines[0]| + k;
        if exists i :: 1 <= i < |lines| && |lines[i]| > w then Err(TooManyFields)
        else
          var padded := PadRows(lines[1..], w);
          assert forall i :: 1 <= i < |lines| ==> padded[i - 1] == PadRow(lines[i], w);
          Ok(Table(lines[0], DropLeading(padded, k)))
  }

  /** The cells that fill out a short data line, past its own fields, are
      empty. */
  lemma ReadCsvFillsMissing(b: Blob, i: nat, j: nat)
    requires ReadCsv(b).Ok? && b.Csv? && 1 <= i < |b.lines| && j < |b.lines[0]|
    requires |b.lines[i]| <= IndexWidth(b.lines) + j
    ensures ReadCsv(b).value.rows[i - 1][j] == Missing
  {
    var lines := b.lines;
    var k := IndexWidth(lines);
    var w := |lines[0]| + k;
    var padded := PadRows(lines[1..], w);
    assert padded[i - 1] == PadRow(lines[i], w);
    assert ReadCsv(b).value.rows[i - 1] == padded[i - 1][k..];
  }

  /** `to_csv(index=None)`: the header line (unless `header=False`) then the rows. */
  function WriteCsv(t: Frame, header: bool): (b: Blob)
    ensures b.Csv? && |b.lines| == |t.rows| + (if header then 1 else 0)
    ensures header ==> b.lines[0] == t.header && b.lines[1..] == t.rows
    ensures !header ==> b.lines == t.rows
  {
    Csv(if header then [t.header] + t.rows else t.rows)
  }

  /** `to_excel(index=None, header=True)`: the header row then the rows. */
  function WriteExcel(t: Frame): (b: Blob)
    ensures b.Xlsx? && |b.grid| == |t.rows| + 1
    ensures b.grid[0] == t.header && b.grid[1..] == t.rows
  {
    Xlsx([t.header] + t.rows)
  }

  /** A table written to CSV with its header reads back as the same table. */
  lemma CsvRoundTrip(t: Frame)
    ensures ReadCsv(WriteCsv(t, true)) == Ok(t)
  {
    var lines := [t.header] + t.rows;
    assert lines[1..] == t.rows;
    PadRowsOfRect(t.rows, |t.header|);
    DropNothing(t.rows);
  }

  /** A table written to a workbook reads back as the same table. */
  lemma ExcelRoundTrip(t: Frame)
    ensures ReadExcel(WriteExcel(t)) == Ok(t)
  {
    var g := [t.header] + t.rows;
    assert forall i :: 0 <= i < |g| ==> |g[i]| == |t.header|;
    assert MaxWidth(g) == |t.header|;
    PadRowsOfRect(g, |t.header|);
  }

  /** The header shift: a table written to CSV WITHOUT its header reads back
      with its first data row as the header and the remaining rows as data; a
      table with no rows leaves an empty body, which cannot be read. */
  lemma HeaderlessReload(t: Frame)
    ensures |t.rows| == 0 ==> ReadCsv(WriteCsv(t, false)) == Err(EmptyData)
    ensures |t.rows| > 0 ==> ReadCsv(WriteCsv(t, false)) == Ok(Table(t.rows[0], t.rows[1..]))
  {
    if |t.rows| > 0 {
      PadRowsOfRect(t.rows[1..], |t.rows[0]|);
      DropNothing(t.rows[1..]);
    }
  }
}
