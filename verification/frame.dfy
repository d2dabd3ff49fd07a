/** Tables as pandas holds them in the pipeline: a row of column labels over
    rectangular rows of cells, plus the errors the pipeline can raise. */
module Frame {

  /** One cell: text, an integer, or an empty cell (pandas' NaN). */
  datatype Cell = Text(s: string) | Int(n: int) | Missing

  type Row = seq<Cell>

  /** A header (column labels) and the data rows below it. */
  datatype Table = Table(header: Row, rows: seq<Row>) {
    /** Every row has one cell per column. */
    predicate Rect() {
      forall i :: 0 <= i < |rows| ==> |rows[i]| == |header|
    }
  }

  /** A DataFrame: a table whose rows are all as wide as its header. */
  type Frame = t: Table | t.Rect() witness Table([], [])

  datatype Option<+T> = None | Some(value: T)

  /** The exceptions the pipeline can raise, by the condition that raises them. */
  datatype Error =
    | UnsupportedFormat         // read_excel / read_csv given a body of the other format
    | EmptyData                 // read_csv on a body with no lines
    | TooManyFields             // read_csv: a data line wider than the first one (or than the header)
    | MissingColumn(name: string)  // KeyError from `del df[name]`, merge(on=name), sort_values(name)
    | NoObjectsToConcatenate    // pd.concat([])
    | NoListingContents         // KeyError 'Contents': list_objects found no key
    | NoSuchKey(key: string)    // get_object on an absent key
    | NoSecondSegment(key: string)  // IndexError from key.split('/')[1]

  datatype Result<+T> = Ok(value: T) | Err(error: Error) {
    predicate IsFailure() { Err? }
    function PropagateFailure<U>(): Result<U> requires Err? { Err(error) }
    function Extract(): T requires Ok? { value }
  }

  /** The outcome of a step that returns nothing (Python's `None`) or raises. */
  datatype Outcome = Pass | Fail(error: Error) {
    predicate IsFailure() { Fail? }
    function PropagateFailure(): Outcome requires Fail? { this }
  }

  /** The position of the first column labelled `c`, or `|h|` when there is none. */
  function IndexOf(h: Row, c: Cell): (i: nat)
    ensures i <= |h|
    ensures i < |h| <==> c in h
    ensures i < |h| ==> h[i] == c
    ensures forall j :: 0 <= j < i ==> h[j] != c
  {
    if h == [] then 0
    else if h[0] == c then 0
    else 1 + IndexOf(h[1..], c)
  }

  /** The labels of `h` other than `c`, in order. */
  function Without(h: Row, c: Cell): (r: Row)
    ensures c !in r
    ensures forall d :: d != c ==> (d in r <==> d in h)
    ensures |r| <= |h|
  {
    if h == [] then []
    else (if h[0] == c then [] else [h[0]]) + Without(h[1..], c)
  }

  /** Removing a label works piece by piece, so the labels kept stay in
      their order. */
  lemma {:induction false} WithoutAppend(h1: Row, h2: Row, c: Cell)
    ensures Without(h1 + h2, c) == Without(h1, c) + Without(h2, c)
  {
    if h1 != [] {
      assert (h1 + h2)[1..] == h1[1..] + h2;
      WithoutAppend(h1[1..], h2, c);
    } else {
      assert h1 + h2 == h2;
    }
  }

  /** The cells of `r` that stand under a label of `h` other than `c`. */
  function CellsWithout(r: Row, h: Row, c: Cell): Row
    requires |r| == |h|
  {
    if h == [] then []
    else (if h[0] == c then [] else [r[0]]) + CellsWithout(r[1..], h[1..], c)
  }

  lemma {:induction false} CellsWithoutLength(r: Row, h: Row, c: Cell)
    requires |r| == |h|
    ensures |CellsWithout(r, h, c)| == |Without(h, c)|
  {
    if h != [] {
      CellsWithoutLength(r[1..], h[1..], c);
    }
  }

  /** A row seen as (label, cell) pairs. */
  function Labelled(h: Row, r: Row): seq<(Cell, Cell)>
    requires |r| == |h|
  {
    seq(|h|, k requires 0 <= k < |h| => (h[k], r[k]))
  }

  /** The pairs whose label is not `c`, in order. */
  function DropLabel(ps: seq<(Cell, Cell)>, c: Cell): seq<(Cell, Cell)>
  {
    if ps == [] then []
    else (if ps[0].0 == c then [] else [ps[0]]) + DropLabel(ps[1..], c)
  }

  /** `del t[name]`: removes every column labelled `name`; raises KeyError when
      there is none. */
  function DeleteColumn(t: Frame, name: string): (r: Result<Frame>)
    ensures r.Err? <==> Text(name) !in t.header
    ensures r.Err? ==> r.error == MissingColumn(name)
    ensures r.Ok? ==> Text(name) !in r.value.header
    ensures r.Ok? ==> forall c :: c != Text(name) ==> (c in r.value.header <==> c in t.header)
    ensures r.Ok? ==> r.value.header == Without(t.header, Text(name))
    ensures r.Ok? ==> |r.value.rows| == |t.rows|
  {
    var c := Text(name);
    if c !in t.header then Err(MissingColumn(name))
    else
      var h := Without(t.header, c);
      var rows := seq(|t.rows|, i requires 0 <= i < |t.rows| => CellsWithout(t.rows[i], t.header, c));
      assert forall i :: 0 <= i < |rows| ==> |rows[i]| == |h| by {
        forall i | 0 <= i < |rows| ensures |rows[i]| == |h| {
          CellsWithoutLength(t.rows[i], t.header, c);
        }
      }
      Ok(Table(h, rows))
  }

  lemma {:induction false} CellsWithoutLabelled(r: Row, h: Row, c: Cell)
    requires |r| == |h|
    ensures |CellsWithout(r, h, c)| == |Without(h, c)|
    ensures Labelled(Without(h, c), CellsWithout(r, h, c)) == DropLabel(Labelled(h, r), c)
  {
    CellsWithoutLength(r, h, c);
    if h != [] {
      CellsWithoutLabelled(r[1..], h[1..], c);
      assert Labelled(h, r) == [(h[0], r[0])] + Labelled(h[1..], r[1..]);
    }
  }

  /** Deleting a column keeps, in each row, every cell of every other column, in
      the same order. */
  lemma DeleteColumnKeepsCells(t: Frame, name: string, i: nat)
    requires DeleteColumn(t, name).Ok? && i < |t.rows|
    ensures var d := DeleteColumn(t, name).value;
      Labelled(d.header, d.rows[i]) == DropLabel(Labelled(t.header, t.rows[i]), Text(name))
  {
    CellsWithoutLabelled(t.rows[i], t.header, Text(name));
  }
}
