/** `DataFrame.drop_duplicates()` with its defaults: a row equal, cell for
    cell, to an earlier row is dropped; the first occurrence is kept. */
module Dedup {

  predicate NoDuplicates<T(==,!new)>(s: seq<T>) {
    forall i, j :: 0 <= i < j < |s| ==> s[i] != s[j]
  }

  /** The position of the first occurrence of `x` in `s`. */
  function FirstIndex<T(==,!new)>(s: seq<T>, x: T): (i: nat)
    requires x in s
    ensures i < |s| && s[i] == x
    ensures forall j :: 0 <= j < i ==> s[j] != x
  {
    if s[0] == x then 0 else 1 + FirstIndex(s[1..], x)
  }

  /** The rows of `s` that do not repeat an earlier row, in their order in `s`. */
  function DropDuplicates<T(==,!new)>(s: seq<T>): (r: seq<T>)
    ensures forall x :: x in r <==> x in s
    ensures NoDuplicates(r)
    ensures |r| <= |s|
  {
    if s == [] then []
    else
      var d := DropDuplicates(s[..|s| - 1]);
      var x := s[|s| - 1];
      assert forall i :: 0 <= i < |s| - 1 ==> s[i] == s[..|s| - 1][i];
      if x in d then d else d + [x]
  }

  /** The elements of `t` that do not occur in `s`, in their order in `t`. */
  function Unseen<T(==,!new)>(s: seq<T>, t: seq<T>): (r: seq<T>)
    ensures forall x :: x in r <==> x in t && x !in s
  {
    if t == [] then []
    else
      var init := t[..|t| - 1];
      var x := t[|t| - 1];
      assert t == init + [x];
      if x in s then Unseen(s, init) else Unseen(s, init) + [x]
  }

  lemma {:induction false} UnseenAppend<T(!new)>(s: seq<T>, t: seq<T>, t': seq<T>)
    ensures Unseen(s, t + t') == Unseen(s, t) + Unseen(s, t')
  {
    if t' == [] {
      assert t + t' == t;
    } else {
      var n := |t'| - 1;
      assert (t + t')[..|t + t'| - 1] == t + t'[..n];
      UnseenAppend(s, t, t'[..n]);
    }
  }

  /** Dropping duplicates from `s + t` keeps what it keeps of `s`, then the
      first occurrences of the elements of `t` that `s` lacks. */
  lemma {:induction false} DropDuplicatesAppend<T(!new)>(s: seq<T>, t: seq<T>)
    ensures DropDuplicates(s + t) == DropDuplicates(s) + DropDuplicates(Unseen(s, t))
  {
    var d := DropDuplicates(s);
    if t == [] {
      assert s + t == s;
      assert d + [] == d;
    } else {
      var n := |t| - 1;
      var x := t[n];
      var u := Unseen(s, t[..n]);
      var e := DropDuplicates(u);
      assert s + t == (s + t[..n]) + [x];
      DropDuplicatesSnoc(s + t[..n], x);
      DropDuplicatesAppend(s, t[..n]);
      if x in s {
        assert Unseen(s, t) == u;
        assert x in d + e;
      } else {
        assert Unseen(s, t) == u + [x];
        DropDuplicatesSnoc(u, x);
        assert x in d + e <==> x in e;
        AppendAssociative(d, e, [x]);
      }
    }
  }

  lemma AppendAssociative<T>(a: seq<T>, b: seq<T>, c: seq<T>)
    ensures (a + b) + c == a + (b + c)
  {
  }

  /** One more element is kept exactly when it is not there yet. */
  lemma DropDuplicatesSnoc<T(!new)>(p: seq<T>, x: T)
    ensures DropDuplicates(p + [x]) ==
      if x in DropDuplicates(p) then DropDuplicates(p) else DropDuplicates(p) + [x]
  {
    assert (p + [x])[..|p|] == p && (p + [x])[|p|] == x;
  }

  /** `a` followed by the elements of `h` it lacks, each once, in order of
      first appearance in `h`. */
  function Union<T(==,!new)>(a: seq<T>, h: seq<T>): seq<T>
  {
    a + DropDuplicates(Unseen(a, h))
  }

  /** The union starts with `a`; what follows is new and holds each element
      once; it holds exactly the elements of `a` and `h`; and it is `a` when
      `h` adds nothing. */
  lemma UnionProperties<T(!new)>(a: seq<T>, h: seq<T>)
    ensures var u := Union(a, h);
      && |a| <= |u| && u[..|a|] == a
      && NoDuplicates(u[|a|..])
      && (forall k :: |a| <= k < |u| ==> u[k] !in a)
      && (forall x :: x in u <==> x in a || x in h)
      && ((forall k :: 0 <= k < |h| ==> h[k] in a) ==> u == a)
  {
    var n := Unseen(a, h);
    var d := DropDuplicates(n);
    var u := Union(a, h);
    assert u[|a|..] == d && u[..|a|] == a;
    forall k | |a| <= k < |u| ensures u[k] !in a {
      assert u[k] == d[k - |a|];
    }
    if forall k :: 0 <= k < |h| ==> h[k] in a {
      UnseenOfCovered(a, h);
    }
  }

  /** Nothing is left when every element of `t` occurs in `s`. */
  lemma {:induction false} UnseenOfCovered<T(!new)>(s: seq<T>, t: seq<T>)
    requires forall k :: 0 <= k < |t| ==> t[k] in s
    ensures Unseen(s, t) == []
  {
    if t != [] {
      UnseenOfCovered(s, t[..|t| - 1]);
    }
  }

  /** `Unseen` keeps the order in which elements first occur in `t`. */
  lemma {:induction false} UnseenKeepsFirstOrder<T(!new)>(s: seq<T>, t: seq<T>, x: T, y: T)
    requires x in Unseen(s, t) && y in Unseen(s, t)
    requires FirstIndex(Unseen(s, t), x) < FirstIndex(Unseen(s, t), y)
    ensures FirstIndex(t, x) < FirstIndex(t, y)
  {
    var n := |t| - 1;
    var init := t[..n];
    var z := t[n];
    var r0 := Unseen(s, init);
    var r := Unseen(s, t);
    assert t == init + [z];
    assert r[..|r0|] == r0;
    if y in r0 {
      FirstIndexInPrefix(r, |r0|, y);
      if x in r0 {
        FirstIndexInPrefix(r, |r0|, x);
        UnseenKeepsFirstOrder(s, init, x, y);
        FirstIndexInPrefix(t, n, x);
        FirstIndexInPrefix(t, n, y);
      }
    } else {
      assert y == z && y !in init;
      assert FirstIndex(t, y) == n;
      if x != y {
        assert x in init;
        FirstIndexInPrefix(t, n, x);
      }
    }
  }

  /** The elements of `h` that `a` lacks, deduplicated, come in order of
      first appearance in `h`. */
  lemma NewElementsKeepFirstOrder<T(!new)>(a: seq<T>, h: seq<T>, i: nat, j: nat)
    requires i < j < |DropDuplicates(Unseen(a, h))|
    ensures var d := DropDuplicates(Unseen(a, h));
      d[i] in h && d[j] in h && FirstIndex(h, d[i]) < FirstIndex(h, d[j])
  {
    var n := Unseen(a, h);
    var d := DropDuplicates(n);
    assert d[i] in n && d[j] in n;
    DropDuplicatesKeepsFirstOrder(n, i, j);
    UnseenKeepsFirstOrder(a, h, d[i], d[j]);
  }

  /** The elements the union adds come in order of first appearance in `h`. */
  lemma UnionKeepsFirstOrder<T(!new)>(a: seq<T>, h: seq<T>, i: nat, j: nat)
    requires |a| <= i < j < |Union(a, h)|
    ensures Union(a, h)[i] in h && Union(a, h)[j] in h
    ensures FirstIndex(h, Union(a, h)[i]) < FirstIndex(h, Union(a, h)[j])
  {
    UnionIndex(a, h, i);
    UnionIndex(a, h, j);
    NewElementsKeepFirstOrder(a, h, i - |a|, j - |a|);
  }

  /** Past `a`, the union holds the new elements. */
  lemma UnionIndex<T(!new)>(a: seq<T>, h: seq<T>, i: nat)
    requires |a| <= i < |Union(a, h)|
    ensures Union(a, h)[i] == DropDuplicates(Unseen(a, h))[i - |a|]
  {
    AppendIndex(a, DropDuplicates(Unseen(a, h)), i);
  }

  lemma AppendIndex<T>(a: seq<T>, b: seq<T>, i: nat)
    requires |a| <= i < |a| + |b|
    ensures (a + b)[i] == b[i - |a|]
  {
  }

  /** Extending `h` by one element extends the union by it unless the union
      already holds it. */
  lemma UnionSnoc<T(!new)>(a: seq<T>, h: seq<T>, x: T)
    ensures Union(a, h + [x]) == if x in Union(a, h) then Union(a, h) else Union(a, h) + [x]
  {
    var n := Unseen(a, h);
    var d := DropDuplicates(n);
    assert Union(a, h) == a + d;
    assert (h + [x])[..|h + [x]| - 1] == h && (h + [x])[|h|] == x;
    if x in a {
      assert Unseen(a, h + [x]) == n;
    } else {
      var m := n + [x];
      assert Unseen(a, h + [x]) == m;
      UnionSnocNew(a, n, x);
    }
  }

  lemma UnionSnocNew<T(!new)>(a: seq<T>, n: seq<T>, x: T)
    requires x !in a
    ensures var d := DropDuplicates(n);
      a + DropDuplicates(n + [x]) == if x in a + d then a + d else a + d + [x]
  {
    var d := DropDuplicates(n);
    var m := n + [x];
    assert m[..|m| - 1] == n && m[|m| - 1] == x;
    if x !in d {
      assert DropDuplicates(m) == d + [x];
      AppendAssociative(a, d, [x]);
    }
  }

  /** Leaving out the elements of `a + d` is leaving out those of `a`, then
      those of `s`, when `d` and `s` hold the same elements. */
  lemma {:induction false} UnseenOfUnion<T(!new)>(a: seq<T>, d: seq<T>, s: seq<T>, h: seq<T>)
    requires forall x :: x in d <==> x in s
    ensures Unseen(a + d, h) == Unseen(s, Unseen(a, h))
  {
    if h != [] {
      var init := h[..|h| - 1];
      var x := h[|h| - 1];
      UnseenOfUnion(a, d, s, init);
      var t := Unseen(a, init);
      assert x !in a ==> (t + [x])[..|t + [x]| - 1] == t;
    }
  }

  /** Taking the union with `l`, then with `h`, is taking it with `l + h`. */
  lemma UnionAppend<T(!new)>(a: seq<T>, l: seq<T>, h: seq<T>)
    ensures Union(Union(a, l), h) == Union(a, l + h)
  {
    var s := Unseen(a, l);
    var d := DropDuplicates(s);
    var t := Unseen(a, h);
    var e := DropDuplicates(Unseen(s, t));
    calc {
      Union(a, l + h);
      a + DropDuplicates(Unseen(a, l + h));
      { UnseenAppend(a, l, h); }
      a + DropDuplicates(s + t);
      { DropDuplicatesAppend(s, t); }
      a + (d + e);
      (a + d) + e;
      { UnseenOfUnion(a, d, s, h); }
      (a + d) + DropDuplicates(Unseen(a + d, h));
    }
  }

  lemma {:induction false} FirstIndexInPrefix<T(!new)>(s: seq<T>, n: nat, x: T)
    requires n <= |s| && x in s[..n]
    ensures FirstIndex(s, x) == FirstIndex(s[..n], x)
  {
    if s[0] != x {
      assert s[1..][..n - 1] == s[..n][1..];
      FirstIndexInPrefix(s[1..], n - 1, x);
    }
  }

  /** The survivors keep the order of their first occurrences. */
  lemma {:induction false} DropDuplicatesKeepsFirstOrder<T(!new)>(s: seq<T>, i: nat, j: nat)
    requires i < j < |DropDuplicates(s)|
    ensures FirstIndex(s, DropDuplicates(s)[i]) < FirstIndex(s, DropDuplicates(s)[j])
  {
    var n := |s| - 1;
    var p := s[..n];
    var d := DropDuplicates(p);
    var r := DropDuplicates(s);
    assert r == if s[n] in d then d else d + [s[n]];
    assert r[i] == d[i] && d[i] in p;
    FirstIndexInPrefix(s, n, d[i]);
    if j < |d| {
      DropDuplicatesKeepsFirstOrder(p, i, j);
      FirstIndexInPrefix(s, n, d[j]);
    } else {
      assert r[j] == s[n] && s[n] !in d;
      assert s[n] !in p;
      assert FirstIndex(s, s[n]) == n;
    }
  }

  /** A sequence without repeats is left as it is. */
  lemma {:induction false} DropDuplicatesOfDistinct<T(!new)>(s: seq<T>)
    requires NoDuplicates(s)
    ensures DropDuplicates(s) == s
  {
    if s != [] {
      var p := s[..|s| - 1];
      assert NoDuplicates(p);
      DropDuplicatesOfDistinct(p);
      assert s[|s| - 1] !in p;
      assert s == p + [s[|s| - 1]];
    }
  }

  /** Dropping duplicates twice is dropping them once. */
  lemma DropDuplicatesIdempotent<T(!new)>(s: seq<T>)
    ensures DropDuplicates(DropDuplicates(s)) == DropDuplicates(s)
  {
    DropDuplicatesOfDistinct(DropDuplicates(s));
  }
}
