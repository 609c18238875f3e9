/** The order of line 142: `products.sort(key=lambda x: (x["rating"],
    x["reviews_count"]), reverse=True)`. Python's sort is stable, also with
    `reverse=True`, so records with equal keys keep the order they had. The
    sort is a library call; it is specified here by a reference insertion sort,
    which is proved descending, a permutation and stable, and to be the only
    arrangement with these properties. */
module Ranking {
  import opened Products

  /** The sort key `(rating, reviews_count)`. */
  datatype Key = Key(rating: real, reviews: int)

  function KeyOf(p: Product): Key {
    Key(p.rating, p.reviews)
  }

  /** Python's tuple order: `a >= b`. */
  predicate KeyAtLeast(a: Key, b: Key) {
    a.rating > b.rating || (a.rating == b.rating && a.reviews >= b.reviews)
  }

  predicate AtLeast(p: Product, q: Product) {
    KeyAtLeast(KeyOf(p), KeyOf(q))
  }

  /** Non-increasing in the key. */
  predicate Descending(xs: seq<Product>) {
    forall i, j :: 0 <= i < j < |xs| ==> AtLeast(xs[i], xs[j])
  }

  /** The records of `xs` with key `k`, in their order in `xs`. */
  function WithKey(xs: seq<Product>, k: Key): (r: seq<Product>)
    ensures |r| <= |xs|
    ensures forall i :: 0 <= i < |r| ==> KeyOf(r[i]) == k
  {
    if xs == [] then []
    else (if KeyOf(xs[0]) == k then [xs[0]] else []) + WithKey(xs[1..], k)
  }

  /** `x` placed before the first record whose key is not above its own. */
  function Insert(x: Product, ys: seq<Product>): (r: seq<Product>)
    ensures |r| == |ys| + 1
  {
    if ys == [] || AtLeast(x, ys[0]) then [x] + ys
    else [ys[0]] + Insert(x, ys[1..])
  }

  /** The sorted list: each record inserted, from the last to the first, so
      an earlier record goes before a later one with the same key. */
  function RankSort(xs: seq<Product>): (r: seq<Product>)
    ensures |r| == |xs|
  {
    if xs == [] then [] else Insert(xs[0], RankSort(xs[1..]))
  }

  // ---------------------------------------------------------------------------
  // A permutation

  /** Inserting adds `x` and nothing else. */
  lemma {:induction false} InsertPermutes(x: Product, ys: seq<Product>)
    ensures multiset(Insert(x, ys)) == multiset(ys) + multiset{x}
    decreases |ys|
  {
    if ys != [] && !AtLeast(x, ys[0]) {
      InsertPermutes(x, ys[1..]);
      assert ys == [ys[0]] + ys[1..];
    }
  }

  /** The sorted list holds the records of `xs`, each as often. */
  lemma {:induction false} RankSortPermutes(xs: seq<Product>)
    ensures multiset(RankSort(xs)) == multiset(xs)
  {
    if xs != [] {
      RankSortPermutes(xs[1..]);
      InsertPermutes(xs[0], RankSort(xs[1..]));
      assert xs == [xs[0]] + xs[1..];
    }
  }

  // ---------------------------------------------------------------------------
  // Descending

  lemma {:induction false} InsertDescending(x: Product, ys: seq<Product>)
    requires Descending(ys)
    ensures Descending(Insert(x, ys))
    ensures Insert(x, ys)[0] == x || (ys != [] && Insert(x, ys)[0] == ys[0])
    decreases |ys|
  {
    if ys != [] && !AtLeast(x, ys[0]) {
      InsertDescending(x, ys[1..]);
      var r := Insert(x, ys);
      forall i, j | 0 <= i < j < |r| ensures AtLeast(r[i], r[j]) {
        if i > 0 {
          assert r[i] == Insert(x, ys[1..])[i - 1] && r[j] == Insert(x, ys[1..])[j - 1];
        } else {
          InsertPermutes(x, ys[1..]);
          assert r[j] in multiset(Insert(x, ys[1..]));
          assert r[j] in multiset(ys[1..]) + multiset{x};
          if r[j] != x {
            var m :| 0 <= m < |ys[1..]| && ys[1..][m] == r[j];
            assert ys[m + 1] == r[j];
          }
        }
      }
    }
  }

  /** The sorted list is non-increasing in `(rating, reviews_count)`. */
  lemma {:induction false} RankSortDescending(xs: seq<Product>)
    ensures Descending(RankSort(xs))
  {
    if xs != [] {
      RankSortDescending(xs[1..]);
      InsertDescending(xs[0], RankSort(xs[1..]));
    }
  }

  // ---------------------------------------------------------------------------
  // Stable

  lemma WithKeyFront(y: Product, t: seq<Product>, k: Key)
    ensures WithKey([y] + t, k) == (if KeyOf(y) == k then [y] else []) + WithKey(t, k)
  {
    assert ([y] + t)[0] == y && ([y] + t)[1..] == t;
  }

  lemma {:induction false} WithKeyInsert(x: Product, ys: seq<Product>, k: Key)
    ensures WithKey(Insert(x, ys), k) == (if KeyOf(x) == k then [x] else []) + WithKey(ys, k)
    decreases |ys|
  {
    if ys == [] || AtLeast(x, ys[0]) {
      WithKeyFront(x, ys, k);
    } else {
      var t := Insert(x, ys[1..]);
      WithKeyInsert(x, ys[1..], k);
      assert Insert(x, ys) == [ys[0]] + t;
      WithKeyFront(ys[0], t, k);
      WithKeyFront(ys[0], ys[1..], k);
      assert [ys[0]] + ys[1..] == ys;
      if KeyOf(x) == k {
        assert KeyOf(ys[0]) != k;
        assert WithKey(Insert(x, ys), k) == WithKey(t, k);
        assert WithKey(ys, k) == WithKey(ys[1..], k);
      } else {
        assert WithKey(t, k) == WithKey(ys[1..], k);
      }
    }
  }

  /** Records with equal keys keep their input order. */
  lemma {:induction false} RankSortStable(xs: seq<Product>, k: Key)
    ensures WithKey(RankSort(xs), k) == WithKey(xs, k)
  {
    if xs != [] {
      RankSortStable(xs[1..], k);
      WithKeyInsert(xs[0], RankSort(xs[1..]), k);
    }
  }

  // ---------------------------------------------------------------------------
  // The only such arrangement

  lemma {:induction false} WithKeyHasKey(xs: seq<Product>, k: Key)
    requires WithKey(xs, k) != []
    ensures exists i :: 0 <= i < |xs| && KeyOf(xs[i]) == k
  {
    if KeyOf(xs[0]) != k {
      WithKeyHasKey(xs[1..], k);
      var i :| 0 <= i < |xs[1..]| && KeyOf(xs[1..][i]) == k;
      assert KeyOf(xs[i + 1]) == k;
    }
  }

  /** Two descending lists with the same records of each key, in the same
      order, are equal. */
  lemma {:induction false} DescendingDetermined(ys: seq<Product>, zs: seq<Product>)
    requires Descending(ys) && Descending(zs)
    requires forall k :: WithKey(ys, k) == WithKey(zs, k)
    ensures ys == zs
    decreases |ys|
  {
    if zs != [] {
      assert WithKey(ys, KeyOf(zs[0])) != [];
    }
    if ys != [] {
      assert WithKey(zs, KeyOf(ys[0])) != [];
      var ky, kz := KeyOf(ys[0]), KeyOf(zs[0]);
      WithKeyHasKey(zs, ky);
      WithKeyHasKey(ys, kz);
      var i :| 0 <= i < |zs| && KeyOf(zs[i]) == ky;
      var j :| 0 <= j < |ys| && KeyOf(ys[j]) == kz;
      assert KeyAtLeast(kz, ky) && KeyAtLeast(ky, kz) by {
        assert i == 0 || AtLeast(zs[0], zs[i]);
        assert j == 0 || AtLeast(ys[0], ys[j]);
      }
      assert ky == kz;
      assert WithKey(ys, ky) == [ys[0]] + WithKey(ys[1..], ky);
      assert WithKey(zs, ky) == [zs[0]] + WithKey(zs[1..], ky);
      assert WithKey(ys, ky) == WithKey(zs, ky);
      assert ys[0] == WithKey(ys, ky)[0] == WithKey(zs, ky)[0] == zs[0];
      WithKeyTails(ys, zs);
      DescendingDetermined(ys[1..], zs[1..]);
      assert ys == [ys[0]] + ys[1..] && zs == [zs[0]] + zs[1..];
    }
  }

  /** Two lists with the same first record and the same records of each key
      still have the same records of each key without their first. */
  lemma WithKeyTails(ys: seq<Product>, zs: seq<Product>)
    requires ys != [] && zs != [] && ys[0] == zs[0]
    requires forall k :: WithKey(ys, k) == WithKey(zs, k)
    ensures forall k :: WithKey(ys[1..], k) == WithKey(zs[1..], k)
  {
    forall k ensures WithKey(ys[1..], k) == WithKey(zs[1..], k) {
      assert WithKey(ys, k) == WithKey(zs, k);
      if k == KeyOf(ys[0]) {
        assert WithKey(ys[1..], k) == WithKey(ys, k)[1..];
        assert WithKey(zs[1..], k) == WithKey(zs, k)[1..];
      } else {
        assert WithKey(ys[1..], k) == WithKey(ys, k);
        assert WithKey(zs[1..], k) == WithKey(zs, k);
      }
    }
  }

  /** Any non-increasing arrangement of `xs` that keeps each key's records in
      their input order is `RankSort(xs)`: the reference sort is exactly what
      a stable descending sort produces. */
  lemma RankSortUnique(xs: seq<Product>, ys: seq<Product>)
    requires Descending(ys)
    requires forall k :: WithKey(ys, k) == WithKey(xs, k)
    ensures ys == RankSort(xs)
  {
    RankSortDescending(xs);
    forall k ensures WithKey(ys, k) == WithKey(RankSort(xs), k) {
      RankSortStable(xs, k);
    }
    DescendingDetermined(ys, RankSort(xs));
  }
}
