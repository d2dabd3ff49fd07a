/** `pd.concat(frames, axis=0, ignore_index=True)`: the rows of every frame,
    frame after frame, under the union of their column labels. */
module Concat {
  import opened Frame
  import Dedup

  /** `acc` followed by the labels of `h` it lacks, each once, in order of
      first appearance in `h` (`Index.union` without sorting). */
  function AddLabels(acc: Row, h: Row): (u: Row)
    ensures u == Dedup.Union(acc, h)
    decreases |h|
  {
    if h == [] then acc
    else
      var init := h[..|h| - 1];
      var x := h[|h| - 1];
      var u := AddLabels(acc, init);
      assert h == init + [x];
      Dedup.UnionSnoc(acc, init, x);
      if x in u then u else u + [x]
  }

  /** The labels of every frame after the first, frame after frame. */
  function LaterLabels(fs: seq<Frame>): (l: Row)
    ensures forall c :: c in l <==> exists i :: 1 <= i < |fs| && c in fs[i].header
  {
    if |fs| <= 1 then []
    else
      var p := fs[..|fs| - 1];
      var last := fs[|fs| - 1];
      var l := LaterLabels(p) + last.header;
      assert forall c :: c in l <==> exists i :: 1 <= i < |fs| && c in fs[i].header by {
        forall c | c in l ensures exists i :: 1 <= i < |fs| && c in fs[i].header {
          if c !in last.header {
            var i :| 1 <= i < |p| && c in p[i].header;
            assert p[i] == fs[i];
          }
        }
        forall c | exists i :: 1 <= i < |fs| && c in fs[i].header ensures c in l {
          var i :| 1 <= i < |fs| && c in fs[i].header;
          if i < |fs| - 1 {
            assert p[i] == fs[i];
          }
        }
      }
      l
  }

  /** The column labels of the concatenation: those of the first frame, then
      the labels of later frames it lacks, each once, in order of first
      appearance. */
  function UnionHeader(fs: seq<Frame>): (u: Row)
    requires |fs| > 0
    ensures u == Dedup.Union(fs[0].header, LaterLabels(fs))
  {
    if |fs| == 1 then
      assert Dedup.Unseen(fs[0].header, LaterLabels(fs)) == [];
      fs[0].header
    else
      var p := fs[..|fs| - 1];
      var last := fs[|fs| - 1].header;
      assert p[0] == fs[0];
      Dedup.UnionAppend(fs[0].header, LaterLabels(p), last);
      AddLabels(UnionHeader(p), last)
  }

  /** The labels of the concatenation start with the first frame's; the
      labels added after them are new and appear once each; they are exactly
      the labels of some frame; frames that share one header keep it. */
  lemma UnionHeaderLabels(fs: seq<Frame>)
    requires |fs| > 0
    ensures var a := fs[0].header; var u := UnionHeader(fs);
      && |a| <= |u| && u[..|a|] == a
      && Dedup.NoDuplicates(u[|a|..])
      && (forall k :: |a| <= k < |u| ==> u[k] !in a)
      && (forall c :: c in u <==> exists i :: 0 <= i < |fs| && c in fs[i].header)
      && ((forall i :: 0 <= i < |fs| ==> fs[i].header == fs[0].header) ==> u == a)
  {
    var a := fs[0].header;
    var l := LaterLabels(fs);
    Dedup.UnionProperties(a, l);
    forall c ensures c in a || c in l <==> exists i :: 0 <= i < |fs| && c in fs[i].header {
      if c in a {
        assert c in fs[0].header;
      }
    }
    if forall i :: 0 <= i < |fs| ==> fs[i].header == fs[0].header {
      forall k | 0 <= k < |l| ensures l[k] in a {
        assert l[k] in l;
      }
    }
  }

  /** The labels added after the first frame's come in the order in which
      they first appear in the later frames' headers. */
  lemma UnionHeaderOrder(fs: seq<Frame>, i: nat, j: nat)
    requires |fs| > 0 && |fs[0].header| <= i < j < |UnionHeader(fs)|
    ensures var l := LaterLabels(fs); var u := UnionHeader(fs);
      u[i] in l && u[j] in l && Dedup.FirstIndex(l, u[i]) < Dedup.FirstIndex(l, u[j])
  {
    Dedup.UnionKeepsFirstOrder(fs[0].header, LaterLabels(fs), i, j);
  }

  /** A row of a frame with header `h`, laid out under the labels `u`: each
      label takes the row's cell under that label, or an empty cell when the
      frame lacks it. A frame that already has header `u` is kept as it is. */
  function Reindex(r: Row, h: Row, u: Row): (p: Row)
    requires |r| == |h|
    ensures |p| == |u|
  {
    if h == u then r
    else seq(|u|, k requires 0 <= k < |u| => if u[k] in h then r[IndexOf(h, u[k])] else Missing)
  }

  lemma ReindexCell(r: Row, h: Row, u: Row, c: Cell)
    requires |r| == |h| && c in u
    ensures Reindex(r, h, u)[IndexOf(u, c)] == if c in h then r[IndexOf(h, c)] else Missing
  {
  }

  /** The number of rows of all frames together. */
  function RowCount(fs: seq<Frame>): nat
  {
    if fs == [] then 0 else RowCount(fs[..|fs| - 1]) + |fs[|fs| - 1].rows|
  }

  /** The rows of every frame, frame after frame, each laid out under `u`. */
  function Stack(fs: seq<Frame>, u: Row): (rows: seq<Row>)
    ensures |rows| == RowCount(fs)
    ensures forall i :: 0 <= i < |rows| ==> |rows[i]| == |u|
  {
    if fs == [] then []
    else
      var f := fs[|fs| - 1];
      Stack(fs[..|fs| - 1], u) + seq(|f.rows|, i requires 0 <= i < |f.rows| => Reindex(f.rows[i], f.header, u))
  }

  /** `pd.concat(frames)`; an empty list raises "No objects to concatenate". */
  function ConcatFrames(fs: seq<Frame>): (r: Result<Frame>)
    ensures r.Err? <==> fs == []
    ensures r.Err? ==> r.error == NoObjectsToConcatenate
    ensures r.Ok? ==> fs != [] && r.value.header == UnionHeader(fs)
    ensures r.Ok? ==> |r.value.rows| == RowCount(fs)
    ensures r.Ok? ==> forall c :: c in r.value.header <==> exists i :: 0 <= i < |fs| && c in fs[i].header
  {
    if fs == [] then Err(NoObjectsToConcatenate)
    else
      UnionHeaderLabels(fs);
      var u := UnionHeader(fs);
      Ok(Table(u, Stack(fs, u)))
  }

  lemma {:induction false} StackAt(fs: seq<Frame>, u: Row, f: nat, i: nat)
    requires f < |fs| && i < |fs[f].rows|
    ensures RowCount(fs[..f]) + i < RowCount(fs)
    ensures Stack(fs, u)[RowCount(fs[..f]) + i] == Reindex(fs[f].rows[i], fs[f].header, u)
  {
    var n := |fs| - 1;
    var p := fs[..n];
    if f == n {
      assert fs[..f] == p;
    } else {
      assert p[..f] == fs[..f] && p[f] == fs[f];
      StackAt(p, u, f, i);
    }
  }

  /** Row `i` of frame `f` is row `RowCount(fs[..f]) + i` of the concatenation,
      holding under each of its frame's labels the cell it had there and an
      empty cell under every label its frame lacks. */
  lemma ConcatCell(fs: seq<Frame>, f: nat, i: nat, c: Cell)
    requires f < |fs| && i < |fs[f].rows|
    requires c in ConcatFrames(fs).value.header
    ensures var t := ConcatFrames(fs).value;
      && RowCount(fs[..f]) + i < |t.rows|
      && t.rows[RowCount(fs[..f]) + i][IndexOf(t.header, c)]
         == if c in fs[f].header then fs[f].rows[i][IndexOf(fs[f].header, c)] else Missing
  {
    var u := UnionHeader(fs);
    StackAt(fs, u, f, i);
    ReindexCell(fs[f].rows[i], fs[f].header, u, c);
  }
}
