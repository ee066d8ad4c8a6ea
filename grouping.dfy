/** The dictionary-building loop app.py uses for `items_by_date`, `diets_by_meal` and
    `by_part`: `d.setdefault(key(x), []).append(x)` for each record in turn, and the
    `sum(...)` generator expressions that add one field over a list of records.
    The specification functions are left folds, so that they follow the loops'
    own order: one record at a time, from the first. */
module Grouping {

  /** The records of `xs` whose key is `k`, in input order. */
  function Bucket<K(==), V>(xs: seq<V>, key: V -> K, k: K): seq<V>
  {
    if xs == [] then []
    else Bucket(xs[..|xs| - 1], key, k) + (if key(xs[|xs| - 1]) == k then [xs[|xs| - 1]] else [])
  }

  /** The keys that occur among the records of `xs`. */
  function KeysOf<K(==), V>(xs: seq<V>, key: V -> K): set<K>
  {
    if xs == [] then {} else KeysOf(xs[..|xs| - 1], key) + {key(xs[|xs| - 1])}
  }

  /** `m` is the dictionary the loop builds from `xs`: one entry per key that occurs,
      holding that key's bucket. */
  ghost predicate IsGrouping<K, V>(m: map<K, seq<V>>, xs: seq<V>, key: V -> K)
  {
    && m.Keys == KeysOf(xs, key)
    && forall k :: k in m ==> m[k] == Bucket(xs, key, k)
  }

  /** `sum(f(x) for x in xs)`: Python adds from the left, starting at 0. */
  function SumBy<V>(xs: seq<V>, f: V -> real): real
  {
    if xs == [] then 0.0 else SumBy(xs[..|xs| - 1], f) + f(xs[|xs| - 1])
  }

  lemma BucketSnoc<K, V>(xs: seq<V>, x: V, key: V -> K, k: K)
    ensures Bucket(xs + [x], key, k) == Bucket(xs, key, k) + (if key(x) == k then [x] else [])
    ensures KeysOf(xs + [x], key) == KeysOf(xs, key) + {key(x)}
  {
    assert (xs + [x])[..|xs|] == xs;
  }

  lemma SumBySnoc<V>(xs: seq<V>, x: V, f: V -> real)
    ensures SumBy(xs + [x], f) == SumBy(xs, f) + f(x)
  {
    assert (xs + [x])[..|xs|] == xs;
  }

  /** A key has a non-empty bucket exactly when some record carries it. */
  lemma {:induction false} BucketNonEmpty<K, V>(xs: seq<V>, key: V -> K, k: K)
    ensures Bucket(xs, key, k) != [] <==> k in KeysOf(xs, key)
    ensures k in KeysOf(xs, key) <==> exists i :: 0 <= i < |xs| && key(xs[i]) == k
  {
    if xs != [] {
      var init := xs[..|xs| - 1];
      BucketNonEmpty(init, key, k);
      if exists i :: 0 <= i < |init| && key(init[i]) == k {
        var i :| 0 <= i < |init| && key(init[i]) == k;
        assert key(xs[i]) == k;
      }
      if exists i :: 0 <= i < |xs| && key(xs[i]) == k {
        var i :| 0 <= i < |xs| && key(xs[i]) == k;
        if i < |init| {
          assert key(init[i]) == k;
        }
      }
    }
  }

  /** Adding one record to a grouping of `xs` gives the grouping of `xs + [x]`. */
  lemma GroupingSnoc<K, V>(m: map<K, seq<V>>, xs: seq<V>, x: V, key: V -> K)
    requires IsGrouping(m, xs, key)
    ensures IsGrouping(m[key(x) := (if key(x) in m then m[key(x)] else []) + [x]], xs + [x], key)
  {
    var m' := m[key(x) := (if key(x) in m then m[key(x)] else []) + [x]];
    BucketSnoc(xs, x, key, key(x));
    if key(x) !in m {
      BucketNonEmpty(xs, key, key(x));
    }
    forall k | k in m'
      ensures m'[k] == Bucket(xs + [x], key, k)
    {
      BucketSnoc(xs, x, key, k);
    }
  }

  /** One turn of the loop: `m.setdefault(k, []).append(x)`. */
  function Add<K(==), V>(m: map<K, seq<V>>, k: K, x: V): map<K, seq<V>>
  {
    m[k := (if k in m then m[k] else []) + [x]]
  }

  /** The dictionary the loop has built once it has seen the records of `xs`. */
  function Grouped<K(==), V>(xs: seq<V>, key: V -> K): map<K, seq<V>>
  {
    if xs == [] then map[] else Add(Grouped(xs[..|xs| - 1], key), key(xs[|xs| - 1]), xs[|xs| - 1])
  }

  lemma GroupedSnoc<K, V>(xs: seq<V>, x: V, key: V -> K)
    ensures Grouped(xs + [x], key) == Add(Grouped(xs, key), key(x), x)
  {
    assert (xs + [x])[..|xs|] == xs;
  }

  /** The loop's dictionary holds, for each key that occurs, that key's bucket. */
  lemma {:induction false} GroupedIsGrouping<K, V>(xs: seq<V>, key: V -> K)
    ensures IsGrouping(Grouped(xs, key), xs, key)
  {
    if xs != [] {
      var init := xs[..|xs| - 1];
      GroupedIsGrouping(init, key);
      GroupingSnoc(Grouped(init, key), init, xs[|xs| - 1], key);
      assert init + [xs[|xs| - 1]] == xs;
    }
  }

  /** The loop `for x in xs: m.setdefault(key(x), []).append(x)`, starting from an
      empty dictionary. */
  method GroupBy<K(==), V>(xs: seq<V>, key: V -> K) returns (m: map<K, seq<V>>)
    ensures IsGrouping(m, xs, key)
  {
    m := map[];
    var i := 0;
    while i < |xs|
      invariant 0 <= i <= |xs|
      invariant m == Grouped(xs[..i], key)
    {
      var k := key(xs[i]);
      var bucket := if k in m then m[k] else [];
      GroupedSnoc(xs[..i], xs[i], key);
      assert xs[..i + 1] == xs[..i] + [xs[i]];
      m := m[k := bucket + [xs[i]]];
      i := i + 1;
    }
    assert xs[..|xs|] == xs;
    GroupedIsGrouping(xs, key);
  }

  /** No records, no entries. */
  lemma GroupingOfNothing<K, V>(m: map<K, seq<V>>, key: V -> K)
    requires IsGrouping(m, [], key)
    ensures m == map[]
  {
  }

  /** Every record of a bucket carries the bucket's key, and a record appears in the
      bucket of its own key exactly as often as in the input and in no other bucket. */
  lemma {:induction false} BucketCount<K, V>(xs: seq<V>, key: V -> K, k: K, x: V)
    ensures forall y :: y in Bucket(xs, key, k) ==> key(y) == k
    ensures multiset(Bucket(xs, key, k))[x] == if key(x) == k then multiset(xs)[x] else 0
  {
    if xs != [] {
      var init := xs[..|xs| - 1];
      BucketCount(init, key, k, x);
      assert xs == init + [xs[|xs| - 1]];
    }
  }

  /** Filtering into buckets commutes with concatenation. */
  lemma {:induction false} BucketConcat<K, V>(xs: seq<V>, ys: seq<V>, key: V -> K, k: K)
    ensures Bucket(xs + ys, key, k) == Bucket(xs, key, k) + Bucket(ys, key, k)
    decreases |ys|
  {
    if ys == [] {
      assert xs + ys == xs;
    } else {
      var init := ys[..|ys| - 1];
      var y := ys[|ys| - 1];
      assert xs + ys == (xs + init) + [y];
      BucketSnoc(xs + init, y, key, k);
      BucketConcat(xs, init, key, k);
      BucketSnoc(init, y, key, k);
      assert init + [y] == ys;
    }
  }

  /** Within a bucket, records keep their input order: two records of the same key,
      the first before the second in the input, appear in that order in the bucket. */
  lemma BucketKeepsOrder<K, V>(xs: seq<V>, key: V -> K, i: int, j: int)
    requires 0 <= i < j < |xs| && key(xs[i]) == key(xs[j])
    ensures var b := Bucket(xs, key, key(xs[i]));
            exists p, q :: 0 <= p < q < |b| && b[p] == xs[i] && b[q] == xs[j]
  {
    var k := key(xs[i]);
    var a, mid, c := xs[..i], xs[i + 1..j], xs[j + 1..];
    assert xs == (a + [xs[i]] + mid) + ([xs[j]] + c);
    BucketConcat(a + [xs[i]] + mid, [xs[j]] + c, key, k);
    BucketConcat(a + [xs[i]], mid, key, k);
    BucketSnoc(a, xs[i], key, k);
    BucketConcat([xs[j]], c, key, k);
    BucketSnoc([], xs[j], key, k);
    var b := Bucket(xs, key, k);
    var p := |Bucket(a, key, k)|;
    var q := |Bucket(a, key, k)| + 1 + |Bucket(mid, key, k)|;
    assert b[p] == xs[i];
    assert b[q] == xs[j];
  }

  /** No key is listed twice. */
  ghost predicate Distinct<K>(ks: seq<K>)
  {
    forall i, j :: 0 <= i < j < |ks| ==> ks[i] != ks[j]
  }

  /** The buckets of the keys `ks`, one after another. */
  ghost function ConcatBuckets<K, V>(xs: seq<V>, key: V -> K, ks: seq<K>): seq<V>
  {
    if ks == [] then [] else Bucket(xs, key, ks[0]) + ConcatBuckets(xs, key, ks[1..])
  }

  lemma {:induction false} ConcatBucketsOfNothing<K, V>(key: V -> K, ks: seq<K>)
    ensures ConcatBuckets([], key, ks) == []
  {
    if ks != [] {
      ConcatBucketsOfNothing(key, ks[1..]);
    }
  }

  lemma {:induction false} ConcatBucketsSnoc<K, V>(xs: seq<V>, x: V, key: V -> K, ks: seq<K>)
    requires Distinct(ks)
    ensures multiset(ConcatBuckets(xs + [x], key, ks))
         == multiset(ConcatBuckets(xs, key, ks)) + (if key(x) in ks then multiset{x} else multiset{})
  {
    if ks != [] {
      ConcatBucketsSnoc(xs, x, key, ks[1..]);
      BucketSnoc(xs, x, key, ks[0]);
      assert key(x) in ks <==> key(x) == ks[0] || key(x) in ks[1..];
      if key(x) == ks[0] {
        assert key(x) !in ks[1..];
      }
    }
  }

  /** When the keys `ks` are distinct and cover every record, the buckets together hold
      exactly the input records: nothing lost, nothing duplicated, so the counts agree. */
  lemma {:induction false} BucketsPartition<K, V>(xs: seq<V>, key: V -> K, ks: seq<K>)
    requires Distinct(ks)
    requires forall i :: 0 <= i < |xs| ==> key(xs[i]) in ks
    ensures multiset(ConcatBuckets(xs, key, ks)) == multiset(xs)
    ensures |ConcatBuckets(xs, key, ks)| == |xs|
  {
    if xs == [] {
      ConcatBucketsOfNothing(key, ks);
    } else {
      var init := xs[..|xs| - 1];
      var x := xs[|xs| - 1];
      assert xs == init + [x];
      BucketsPartition(init, key, ks);
      ConcatBucketsSnoc(init, x, key, ks);
    }
    assert |multiset(ConcatBuckets(xs, key, ks))| == |multiset(xs)|;
  }

  /** Summing one field over two lists adds their sums. */
  lemma {:induction false} SumByConcat<V>(xs: seq<V>, ys: seq<V>, f: V -> real)
    ensures SumBy(xs + ys, f) == SumBy(xs, f) + SumBy(ys, f)
    decreases |ys|
  {
    if ys == [] {
      assert xs + ys == xs;
    } else {
      var init := ys[..|ys| - 1];
      var y := ys[|ys| - 1];
      assert xs + ys == (xs + init) + [y];
      SumBySnoc(xs + init, y, f);
      SumByConcat(xs, init, f);
      SumBySnoc(init, y, f);
      assert init + [y] == ys;
    }
  }

  /** The sums of the buckets of the keys `ks`, added up. */
  ghost function SumOfBuckets<K, V>(xs: seq<V>, key: V -> K, ks: seq<K>, f: V -> real): real
  {
    if ks == [] then 0.0 else SumBy(Bucket(xs, key, ks[0]), f) + SumOfBuckets(xs, key, ks[1..], f)
  }

  lemma {:induction false} SumOfBucketsSnoc<K, V>(xs: seq<V>, x: V, key: V -> K, ks: seq<K>, f: V -> real)
    requires Distinct(ks)
    ensures SumOfBuckets(xs + [x], key, ks, f) == SumOfBuckets(xs, key, ks, f) + (if key(x) in ks then f(x) else 0.0)
  {
    if ks != [] {
      SumOfBucketsSnoc(xs, x, key, ks[1..], f);
      BucketSnoc(xs, x, key, ks[0]);
      if key(x) == ks[0] {
        SumBySnoc(Bucket(xs, key, ks[0]), x, f);
        assert key(x) !in ks[1..];
      } else {
        assert Bucket(xs + [x], key, ks[0]) == Bucket(xs, key, ks[0]);
        assert key(x) in ks <==> key(x) in ks[1..];
      }
    }
  }

  /** Per-bucket sums add up to the sum over all records, when the keys are distinct
      and cover every record. */
  lemma {:induction false} SumOverBuckets<K, V>(xs: seq<V>, key: V -> K, ks: seq<K>, f: V -> real)
    requires Distinct(ks)
    requires forall i :: 0 <= i < |xs| ==> key(xs[i]) in ks
    ensures SumOfBuckets(xs, key, ks, f) == SumBy(xs, f)
  {
    if xs == [] {
      SumOfNothing(key, ks, f);
    } else {
      var init := xs[..|xs| - 1];
      var x := xs[|xs| - 1];
      assert xs == init + [x];
      SumOverBuckets(init, key, ks, f);
      SumOfBucketsSnoc(init, x, key, ks, f);
    }
  }

  lemma {:induction false} SumOfNothing<K, V>(key: V -> K, ks: seq<K>, f: V -> real)
    ensures SumOfBuckets([], key, ks, f) == 0.0
  {
    if ks != [] {
      SumOfNothing(key, ks[1..], f);
    }
  }
}
