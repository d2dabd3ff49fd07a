/** The object store the pipeline talks to (an S3 bucket): put, get, delete
    and a one-page listing of the keys under a prefix, in ascending order. */
module Store {
  import opened Frame
  import opened Formats

  /** One `list_objects` call returns at most this many keys. */
  const MaxKeys: nat := 1000

  /** Key order of a listing: code point by code point, a proper prefix first
      (the same order as comparing the keys' UTF-8 bytes). */
  predicate LexLess(a: string, b: string)
    decreases |a|
  {
    |b| > 0 && (|a| == 0 || a[0] < b[0] || (a[0] == b[0] && LexLess(a[1..], b[1..])))
  }

  lemma {:induction false} LexIrreflexive(a: string)
    ensures !LexLess(a, a)
    decreases |a|
  {
    if |a| > 0 {
      LexIrreflexive(a[1..]);
    }
  }

  lemma {:induction false} LexTransitive(a: string, b: string, c: string)
    requires LexLess(a, b) && LexLess(b, c)
    ensures LexLess(a, c)
    decreases |a|
  {
    if |a| > 0 && a[0] == b[0] && b[0] == c[0] {
      LexTransitive(a[1..], b[1..], c[1..]);
    }
  }

  lemma {:induction false} LexTotal(a: string, b: string)
    requires a != b
    ensures LexLess(a, b) || LexLess(b, a)
    decreases |a|
  {
    if |a| > 0 && |b| > 0 && a[0] == b[0] {
      assert a == [a[0]] + a[1..] && b == [b[0]] + b[1..];
      LexTotal(a[1..], b[1..]);
    }
  }

  predicate StrictlySorted(ks: seq<string>)
  {
    forall i, j :: 0 <= i < j < |ks| ==> LexLess(ks[i], ks[j])
  }

  /** `k` placed into an ascending key sequence. */
  function InsertKey(k: string, ks: seq<string>): (r: seq<string>)
    ensures |r| == |ks| + 1
    ensures forall x :: x in r <==> x == k || x in ks
    ensures StrictlySorted(ks) && k !in ks ==> StrictlySorted(r)
  {
    if ks == [] then [k]
    else if LexLess(k, ks[0]) then
      var r := [k] + ks;
      assert StrictlySorted(ks) ==> StrictlySorted(r) by {
        if StrictlySorted(ks) {
          forall i, j | 0 <= i < j < |r| ensures LexLess(r[i], r[j]) {
            if i == 0 && j > 1 {
              LexTransitive(k, ks[0], ks[j - 1]);
            }
          }
        }
      }
      r
    else
      var rest := InsertKey(k, ks[1..]);
      assert ks == [ks[0]] + ks[1..];
      var r := [ks[0]] + rest;
      assert StrictlySorted(ks) && k !in ks ==> StrictlySorted(r) by {
        if StrictlySorted(ks) && k !in ks {
          LexTotal(k, ks[0]);
          forall j | 0 <= j < |rest| ensures LexLess(ks[0], rest[j]) {
            assert rest[j] in rest;
            if rest[j] != k {
              assert rest[j] in ks[1..];
              var m :| 0 <= m < |ks[1..]| && ks[1..][m] == rest[j];
              assert ks[m + 1] == rest[j];
            }
          }
        }
      }
      r
  }

  /** The keys of `s` in ascending order. */
  ghost function SortedKeys(s: set<string>): (r: seq<string>)
    ensures StrictlySorted(r)
    ensures forall x :: x in r <==> x in s
    decreases s
  {
    if s == {} then []
    else
      var k :| k in s;
      InsertKey(k, SortedKeys(s - {k}))
  }

  lemma SortedTail(a: seq<string>)
    requires StrictlySorted(a) && a != []
    ensures StrictlySorted(a[1..])
    ensures forall x :: x in a[1..] <==> x in a && x != a[0]
  {
    assert a == [a[0]] + a[1..];
    forall x | x in a[1..] ensures x != a[0] {
      var i :| 0 <= i < |a[1..]| && a[1..][i] == x;
      assert LexLess(a[0], a[i + 1]);
      LexIrreflexive(a[0]);
    }
  }

  /** An ascending sequence is determined by its elements. */
  lemma {:induction false} SortedUnique(a: seq<string>, b: seq<string>)
    requires StrictlySorted(a) && StrictlySorted(b)
    requires forall x :: x in a <==> x in b
    ensures a == b
    decreases |a|
  {
    assert a != [] ==> a[0] in b;
    assert b != [] ==> b[0] in a;
    if a != [] && b != [] {
      if a[0] != b[0] {
        assert a[0] in a && b[0] in b;
        var i :| 0 <= i < |b| && b[i] == a[0];
        var j :| 0 <= j < |a| && a[j] == b[0];
        assert i != 0 && j != 0;
        assert LexLess(b[0], a[0]);
        assert LexLess(a[0], b[0]);
        LexTransitive(a[0], b[0], a[0]);
        LexIrreflexive(a[0]);
        assert false;
      }
      SortedTail(a);
      SortedTail(b);
      SortedUnique(a[1..], b[1..]);
      assert a == [a[0]] + a[1..] && b == [b[0]] + b[1..];
    }
  }

  /** The keys of `m` that start with `prefix`. */
  function UnderPrefix<V>(m: map<string, V>, prefix: string): set<string>
  {
    set k | k in m && prefix <= k
  }

  /** The first `n` elements, or all of them when there are fewer. */
  function Take<T>(s: seq<T>, n: nat): (r: seq<T>)
    ensures |r| <= n && r <= s
    ensures |s| <= n ==> r == s
  {
    if |s| <= n then s else s[..n]
  }

  /** What `list_objects(Prefix=prefix)['Contents']` enumerates: the first page
      of the keys under `prefix`, ascending. */
  ghost function Listing(m: map<string, Blob>, prefix: string): seq<string>
  {
    Take(SortedKeys(UnderPrefix(m, prefix)), MaxKeys)
  }

  /** The bucket: a map from key to object body. */
  class Bucket {
    var objects: map<string, Blob>

    constructor (initial: map<string, Blob>)
      ensures objects == initial
    {
      objects := initial;
    }

    /** `put_object`: creates or replaces one object. */
    method Put(key: string, body: Blob)
      modifies this
      ensures objects == old(objects)[key := body]
    {
      objects := objects[key := body];
    }

    /** `get_object`: the body under `key`; NoSuchKey when there is none. */
    method Get(key: string) returns (r: Result<Blob>)
      ensures r.Ok? <==> key in objects
      ensures r.Ok? ==> r.value == objects[key]
      ensures r.Err? ==> r.error == NoSuchKey(key)
    {
      if key in objects {
        r := Ok(objects[key]);
      } else {
        r := Err(NoSuchKey(key));
      }
    }

    /** `delete_object`: removes one object; a no-op when it is absent. */
    method Delete(key: string)
      modifies this
      ensures objects == old(objects) - {key}
    {
      objects := objects - {key};
    }

    /** `list_objects(Prefix=prefix)`: the keys under `prefix` in ascending
        order, at most one page of them. */
    method ListObjects(prefix: string) returns (keys: seq<string>)
      ensures keys == Listing(objects, prefix)
      ensures StrictlySorted(keys) && |keys| <= MaxKeys
      ensures forall k :: k in keys ==> k in objects && prefix <= k
      ensures |UnderPrefix(objects, prefix)| <= MaxKeys ==>
        forall k :: k in objects && prefix <= k ==> k in keys
    {
      ghost var under := UnderPrefix(objects, prefix);
      var remaining := set k | k in objects && prefix <= k;
      var all: seq<string> := [];
      while remaining != {}
        invariant remaining <= under
        invariant StrictlySorted(all)
        invariant forall x :: x in all <==> x in under && x !in remaining
        invariant |all| + |remaining| == |under|
        decreases |remaining|
      {
        var k :| k in remaining;
        all := InsertKey(k, all);
        remaining := remaining - {k};
      }
      SortedUnique(all, SortedKeys(under));
      keys := Take(all, MaxKeys);
      forall k | k in keys ensures k in objects && prefix <= k {
        assert k in all;
        assert k in under;
      }
      forall i, j | 0 <= i < j < |keys| ensures LexLess(keys[i], keys[j]) {
        assert keys[i] == all[i] && keys[j] == all[j];
      }
    }
  }
}
