/** The two table steps of the diff-and-rank stage: the tags of the joined
    competitor table that the primary shop lacks, and the descending sort by
    search volume. */
module Ranking {
  import opened Frame

  const TagsColumn := "Tags"
  const RankColumn := "Average Searches (US)"

  /** The cells of column `col`, row by row. */
  function Column(t: Frame, col: nat): (c: seq<Cell>)
    requires col < |t.header|
    ensures |c| == |t.rows| && forall i :: 0 <= i < |t.rows| ==> c[i] == t.rows[i][col]
  {
    seq(|t.rows|, i requires 0 <= i < |t.rows| => t.rows[i][col])
  }

  /** One copy of `v` for each row of `right` whose key cell equals it. */
  function Matches(v: Cell, right: seq<Row>, rc: nat): (m: seq<Cell>)
    requires forall i :: 0 <= i < |right| ==> rc < |right[i]|
    ensures forall x :: x in m <==> x == v && exists i :: 0 <= i < |right| && right[i][rc] == v
  {
    if right == [] then []
    else
      assert forall i :: 1 <= i < |right| ==> right[1..][i - 1] == right[i];
      (if right[0][rc] == v then [v] else []) + Matches(v, right[1..], rc)
  }

  /** The key column of the inner join `left.merge(right, on=...)`: for each
      left row in turn, its key once per right row with the same key. */
  function JoinKeys(left: seq<Row>, lc: nat, right: seq<Row>, rc: nat): seq<Cell>
    requires forall i :: 0 <= i < |left| ==> lc < |left[i]|
    requires forall i :: 0 <= i < |right| ==> rc < |right[i]|
  {
    if left == [] then []
    else Matches(left[0][lc], right, rc) + JoinKeys(left[1..], lc, right, rc)
  }

  /** A key is in the inner join exactly when both sides have it. */
  lemma {:induction false} JoinKeysHas(left: seq<Row>, lc: nat, right: seq<Row>, rc: nat, v: Cell)
    requires forall i :: 0 <= i < |left| ==> lc < |left[i]|
    requires forall i :: 0 <= i < |right| ==> rc < |right[i]|
    ensures v in JoinKeys(left, lc, right, rc) <==>
      (exists i :: 0 <= i < |left| && left[i][lc] == v) && (exists j :: 0 <= j < |right| && right[j][rc] == v)
  {
    if left != [] {
      JoinKeysHas(left[1..], lc, right, rc, v);
      assert forall i :: 1 <= i < |left| ==> left[1..][i - 1] == left[i];
      if exists i :: 0 <= i < |left| && left[i][lc] == v {
        var i :| 0 <= i < |left| && left[i][lc] == v;
        if i > 0 {
          assert left[1..][i - 1][lc] == v;
        }
      }
    }
  }

  /** `rows[~rows[col].isin(keys)]`: the rows whose cell in column `col` is
      not among `keys`, in their order. */
  function NotIn(rows: seq<Row>, col: nat, keys: seq<Cell>): (r: seq<Row>)
    requires forall i :: 0 <= i < |rows| ==> col < |rows[i]|
    ensures |r| <= |rows|
    ensures forall i :: 0 <= i < |r| ==> r[i] in rows && r[i][col] !in keys
    ensures forall i :: 0 <= i < |rows| && rows[i][col] !in keys ==> rows[i] in r
  {
    if rows == [] then []
    else
      assert forall i :: 1 <= i < |rows| ==> rows[1..][i - 1] == rows[i];
      (if rows[0][col] in keys then [] else [rows[0]]) + NotIn(rows[1..], col, keys)
  }

  /** Filtering against two key lists that agree on the keys the rows hold
      gives the same rows. */
  lemma {:induction false} NotInSameKeys(rows: seq<Row>, col: nat, a: seq<Cell>, b: seq<Cell>)
    requires forall i :: 0 <= i < |rows| ==> col < |rows[i]|
    requires forall i :: 0 <= i < |rows| ==> (rows[i][col] in a <==> rows[i][col] in b)
    ensures NotIn(rows, col, a) == NotIn(rows, col, b)
  {
    if rows != [] {
      assert forall i :: 1 <= i < |rows| ==> rows[1..][i - 1] == rows[i];
      NotInSameKeys(rows[1..], col, a, b);
    }
  }

  /** Lines 36-38 of the stage as written: an inner join on `Tags`, then the
      joined rows whose tag is not among the join's tags. Raises KeyError
      when either table has no `Tags` column. */
  function UniqueRows(joined: Frame, mine: Frame): (r: Result<Frame>)
    ensures r.Err? <==> Text(TagsColumn) !in joined.header || Text(TagsColumn) !in mine.header
    ensures r.Err? ==> r.error == MissingColumn(TagsColumn)
    ensures r.Ok? ==> r.value.header == joined.header
  {
    var jc := IndexOf(joined.header, Text(TagsColumn));
    var mc := IndexOf(mine.header, Text(TagsColumn));
    if jc == |joined.header| || mc == |mine.header| then Err(MissingColumn(TagsColumn))
    else
      var rows := NotIn(joined.rows, jc, JoinKeys(joined.rows, jc, mine.rows, mc));
      Ok(Table(joined.header, rows))
  }

  /** The anti-join: the rows of `joined`, in order, whose tag is absent from
      the `Tags` column of `mine`. */
  function AntiJoin(joined: Frame, mine: Frame): seq<Row>
    requires Text(TagsColumn) in joined.header && Text(TagsColumn) in mine.header
  {
    var jc := IndexOf(joined.header, Text(TagsColumn));
    NotIn(joined.rows, jc, Column(mine, IndexOf(mine.header, Text(TagsColumn))))
  }

  /** The inner join followed by `isin` is exactly the anti-join: a joined row
      survives if and only if the primary table has no row with its tag. */
  lemma UniqueRowsIsAntiJoin(joined: Frame, mine: Frame)
    requires Text(TagsColumn) in joined.header && Text(TagsColumn) in mine.header
    ensures UniqueRows(joined, mine) == Ok(Table(joined.header, AntiJoin(joined, mine)))
    ensures var jc := IndexOf(joined.header, Text(TagsColumn));
      forall row :: row in AntiJoin(joined, mine) <==> row in joined.rows && row[jc] !in Column(mine, IndexOf(mine.header, Text(TagsColumn)))
  {
    var jc := IndexOf(joined.header, Text(TagsColumn));
    var mc := IndexOf(mine.header, Text(TagsColumn));
    var keys := JoinKeys(joined.rows, jc, mine.rows, mc);
    var mineTags := Column(mine, mc);
    forall i | 0 <= i < |joined.rows| ensures joined.rows[i][jc] in keys <==> joined.rows[i][jc] in mineTags {
      JoinKeysHas(joined.rows, jc, mine.rows, mc, joined.rows[i][jc]);
    }
    NotInSameKeys(joined.rows, jc, keys, mineTags);
  }

  /** The ranking value of a row: its integer in column `col`; an empty or
      non-numeric cell has none (pandas' NaN). */
  function Rank(r: Row, col: nat): Option<int>
  {
    if col < |r| && r[col].Int? then Some(r[col].n) else None
  }

  /** `a` may stand before `b` in a descending sort with missing values last. */
  predicate Precedes(a: Option<int>, b: Option<int>)
  {
    b.None? || (a.Some? && a.value >= b.value)
  }

  /** Ranks never increase down the rows, and no row with a rank follows a
      row without one. */
  predicate RankedDesc(rows: seq<Row>, col: nat)
  {
    forall i, j :: 0 <= i < j < |rows| ==> Precedes(Rank(rows[i], col), Rank(rows[j], col))
  }

  lemma PrecedesTransitive(a: Option<int>, b: Option<int>, c: Option<int>)
    requires Precedes(a, b) && Precedes(b, c)
    ensures Precedes(a, c)
  {
  }

  /** A row that may precede every row of a ranked sequence can head it. */
  lemma PrependRanked(y: Row, rest: seq<Row>, col: nat)
    requires RankedDesc(rest, col)
    requires forall j :: 0 <= j < |rest| ==> Precedes(Rank(y, col), Rank(rest[j], col))
    ensures RankedDesc([y] + rest, col)
  {
    var r := [y] + rest;
    forall i, j | 0 <= i < j < |r| ensures Precedes(Rank(r[i], col), Rank(r[j], col)) {
      assert r[j] == rest[j - 1];
      if i > 0 {
        assert r[i] == rest[i - 1];
      }
    }
  }

  /** `x` placed into a ranked sequence before the first row it may precede. */
  function Insert(x: Row, rows: seq<Row>, col: nat): (r: seq<Row>)
    ensures multiset(r) == multiset(rows) + multiset{x}
    ensures RankedDesc(rows, col) ==> RankedDesc(r, col)
  {
    if rows == [] then [x]
    else if Precedes(Rank(x, col), Rank(rows[0], col)) then
      assert RankedDesc(rows, col) ==> RankedDesc([x] + rows, col) by {
        if RankedDesc(rows, col) {
          forall j | 0 <= j < |rows| ensures Precedes(Rank(x, col), Rank(rows[j], col)) {
            if j > 0 {
              PrecedesTransitive(Rank(x, col), Rank(rows[0], col), Rank(rows[j], col));
            }
          }
          PrependRanked(x, rows, col);
        }
      }
      [x] + rows
    else
      var rest := Insert(x, rows[1..], col);
      assert rows == [rows[0]] + rows[1..];
      assert RankedDesc(rows, col) ==> RankedDesc([rows[0]] + rest, col) by {
        if RankedDesc(rows, col) {
          InsertBehind(x, rows, rest, col);
        }
      }
      [rows[0]] + rest
  }

  /** The step of `Insert` that keeps the head row in front. */
  lemma InsertBehind(x: Row, rows: seq<Row>, rest: seq<Row>, col: nat)
    requires rows != [] && !Precedes(Rank(x, col), Rank(rows[0], col))
    requires RankedDesc(rows, col) && RankedDesc(rest, col)
    requires multiset(rest) == multiset(rows[1..]) + multiset{x}
    ensures RankedDesc([rows[0]] + rest, col)
  {
    forall j | 0 <= j < |rest| ensures Precedes(Rank(rows[0], col), Rank(rest[j], col)) {
      assert rest[j] in multiset(rows[1..]) + multiset{x};
      if rest[j] != x {
        var k :| 0 <= k < |rows[1..]| && rows[1..][k] == rest[j];
        assert rows[k + 1] == rest[j];
      }
    }
    PrependRanked(rows[0], rest, col);
  }

  /** The rows without a rank, in their order. */
  function Unranked(rows: seq<Row>, col: nat): seq<Row>
  {
    if rows == [] then []
    else (if Rank(rows[0], col).None? then [rows[0]] else []) + Unranked(rows[1..], col)
  }

  lemma UnrankedCons(y: Row, rest: seq<Row>, col: nat)
    ensures Unranked([y] + rest, col) == (if Rank(y, col).None? then [y] else []) + Unranked(rest, col)
  {
    assert ([y] + rest)[0] == y && ([y] + rest)[1..] == rest;
  }

  /** Inserting a row keeps the unranked rows in order: an unranked row goes
      in front of every unranked row already there. */
  lemma {:induction false} InsertKeepsUnranked(x: Row, rows: seq<Row>, col: nat)
    ensures Unranked(Insert(x, rows, col), col) == Unranked([x] + rows, col)
  {
    if rows == [] {
      assert [x] + rows == [x];
    } else if !Precedes(Rank(x, col), Rank(rows[0], col)) {
      var rest := Insert(x, rows[1..], col);
      assert Insert(x, rows, col) == [rows[0]] + rest;
      InsertKeepsUnranked(x, rows[1..], col);
      UnrankedBehind(x, rows, rest, col);
    }
  }

  /** A ranked head row does not change the unranked rows behind it. */
  lemma UnrankedBehind(x: Row, rows: seq<Row>, rest: seq<Row>, col: nat)
    requires rows != [] && Rank(rows[0], col).Some?
    requires Unranked(rest, col) == Unranked([x] + rows[1..], col)
    ensures Unranked([rows[0]] + rest, col) == Unranked([x] + rows, col)
  {
    UnrankedCons(rows[0], rest, col);
    UnrankedCons(x, rows[1..], col);
    UnrankedCons(x, rows, col);
    UnrankedCons(rows[0], rows[1..], col);
    assert [rows[0]] + rows[1..] == rows;
  }

  /** The rows sorted descending by rank, missing ranks last. Rows of equal
      rank come out in an order this model fixes; for equal numeric ranks
      pandas' default sort is not stable and promises none, so no contract
      here speaks of it. Rows without a rank keep their input order, as
      pandas appends them in that order after the sorted ones
      (`SortDescKeepsUnrankedOrder`). */
  function SortDesc(rows: seq<Row>, col: nat): (r: seq<Row>)
    ensures multiset(r) == multiset(rows)
    ensures RankedDesc(r, col)
  {
    if rows == [] then []
    else
      assert rows == [rows[0]] + rows[1..];
      Insert(rows[0], SortDesc(rows[1..], col), col)
  }

  /** The rows without a rank come out last in their input order. */
  lemma {:induction false} SortDescKeepsUnrankedOrder(rows: seq<Row>, col: nat)
    ensures Unranked(SortDesc(rows, col), col) == Unranked(rows, col)
  {
    if rows != [] {
      SortDescKeepsUnrankedOrder(rows[1..], col);
      InsertKeepsUnranked(rows[0], SortDesc(rows[1..], col), col);
      UnrankedCons(rows[0], SortDesc(rows[1..], col), col);
      UnrankedCons(rows[0], rows[1..], col);
      assert [rows[0]] + rows[1..] == rows;
    }
  }

  /** `t.sort_values(RankColumn, ascending=False)`; KeyError without that column. */
  function SortByRank(t: Frame): (r: Result<Frame>)
    ensures r.Err? <==> Text(RankColumn) !in t.header
    ensures r.Err? ==> r.error == MissingColumn(RankColumn)
    ensures r.Ok? ==> r.value.header == t.header
    ensures r.Ok? ==> multiset(r.value.rows) == multiset(t.rows)
    ensures r.Ok? ==> RankedDesc(r.value.rows, IndexOf(t.header, Text(RankColumn)))
    ensures r.Ok? ==>
      var col := IndexOf(t.header, Text(RankColumn));
      Unranked(r.value.rows, col) == Unranked(t.rows, col)
  {
    var col := IndexOf(t.header, Text(RankColumn));
    if col == |t.header| then Err(MissingColumn(RankColumn))
    else
      var rows := SortDesc(t.rows, col);
      SortDescKeepsUnrankedOrder(t.rows, col);
      assert forall i :: 0 <= i < |rows| ==> |rows[i]| == |t.header| by {
        forall i | 0 <= i < |rows| ensures |rows[i]| == |t.header| {
          assert rows[i] in multiset(t.rows);
        }
      }
      Ok(Table(t.header, rows))
  }
}
