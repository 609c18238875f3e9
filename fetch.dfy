/** The body of `fetch_amazon_products` once the response is decoded
    (app.py lines 114-143): keep the records whose price is within the
    budget, normalise them, sort them by `(rating, reviews_count)` from the
    highest down, and return the first `num_results`. */
module Fetch {
  import opened Values
  import opened Products
  import opened Ranking

  /** The list the loop of lines 114-140 builds from `results`: the normalised
      records whose price is in `[minPrice, maxPrice]`, in input order. */
  function Selected(results: seq<RawProduct>, minPrice: real, maxPrice: real): (r: seq<Product>)
    ensures |r| <= |results|
    ensures forall i :: 0 <= i < |r| ==> minPrice <= r[i].price <= maxPrice
    decreases |results|
  {
    if results == [] then []
    else
      var last := results[|results| - 1];
      Selected(results[..|results| - 1], minPrice, maxPrice)
        + (if InBudget(last, minPrice, maxPrice) then [Normalise(last)] else [])
  }

  /** Python's `xs[:n]`: the first `n` elements, or all but the last `-n`
      when `n` is negative, and never fewer than none. */
  function Truncate(xs: seq<Product>, n: int): (r: seq<Product>)
    ensures r <= xs
    ensures n >= 0 ==> |r| == if n <= |xs| then n else |xs|
    ensures n < 0 ==> |r| == if |xs| + n >= 0 then |xs| + n else 0
  {
    var m := if n >= 0 then n else |xs| + n;
    if m <= 0 then [] else if m >= |xs| then xs else xs[..m]
  }

  /** Lines 114-143 on the decoded "organic_results". */
  method FetchProducts(results: seq<RawProduct>, minPrice: real, maxPrice: real, numResults: int)
    returns (products: seq<Product>)
    ensures products == Truncate(RankSort(Selected(results, minPrice, maxPrice)), numResults)
    ensures forall i :: 0 <= i < |products| ==> minPrice <= products[i].price <= maxPrice
    ensures numResults >= 0 ==> |products| <= numResults
    ensures Descending(products)
    ensures forall k :: WithKey(products, k) <= WithKey(Selected(results, minPrice, maxPrice), k)
    ensures multiset(products) <= multiset(Selected(results, minPrice, maxPrice))
  {
    var found := SelectInBudget(results, minPrice, maxPrice);
    products := Truncate(RankSort(found), numResults);
    TopRanked(found, numResults, minPrice, maxPrice);
  }

  /** The loop of lines 114-140: the normalised records within the budget, in
      input order. */
  method SelectInBudget(results: seq<RawProduct>, minPrice: real, maxPrice: real)
    returns (found: seq<Product>)
    ensures found == Selected(results, minPrice, maxPrice)
  {
    found := [];
    var i := 0;
    while i < |results|
      invariant 0 <= i <= |results|
      invariant found == Selected(results[..i], minPrice, maxPrice)
    {
      var product := results[i];
      var priceVal := PriceOf(product);
      if minPrice <= priceVal <= maxPrice {
        found := found + [Normalise(product)];
      }
      SelectedStep(results, i, minPrice, maxPrice);
      i := i + 1;
    }
    assert results[..i] == results;
  }

  /** One more record of `results` adds its normalised form when it is within
      the budget, and nothing otherwise. */
  lemma SelectedStep(results: seq<RawProduct>, i: nat, minPrice: real, maxPrice: real)
    requires i < |results|
    ensures Selected(results[..i + 1], minPrice, maxPrice)
            == Selected(results[..i], minPrice, maxPrice)
               + (if InBudget(results[i], minPrice, maxPrice) then [Normalise(results[i])] else [])
  {
    assert results[..i + 1][..i] == results[..i];
  }

  /** What the sort and the cut of lines 142-143 keep of a list of records. */
  lemma TopRanked(found: seq<Product>, n: int, minPrice: real, maxPrice: real)
    requires forall i :: 0 <= i < |found| ==> minPrice <= found[i].price <= maxPrice
    ensures var top := Truncate(RankSort(found), n);
            (forall i :: 0 <= i < |top| ==> minPrice <= top[i].price <= maxPrice)
            && Descending(top)
            && (forall k :: WithKey(top, k) <= WithKey(found, k))
            && multiset(top) <= multiset(found)
  {
    var ranked := RankSort(found);
    var top := Truncate(ranked, n);
    RankSortDescending(found);
    RankSortPermutes(found);
    forall k ensures WithKey(top, k) <= WithKey(found, k) {
      RankSortStable(found, k);
      WithKeyPrefix(ranked, top, k);
    }
    assert ranked == top + ranked[|top|..];
    PricesOfSubset(top, found, minPrice, maxPrice);
  }

  /** Records drawn from a list whose prices are in a range have prices in that range. */
  lemma PricesOfSubset(ys: seq<Product>, xs: seq<Product>, minPrice: real, maxPrice: real)
    requires multiset(ys) <= multiset(xs)
    requires forall i :: 0 <= i < |xs| ==> minPrice <= xs[i].price <= maxPrice
    ensures forall i :: 0 <= i < |ys| ==> minPrice <= ys[i].price <= maxPrice
  {
    forall i | 0 <= i < |ys| ensures minPrice <= ys[i].price <= maxPrice {
      assert ys[i] in multiset(ys);
      assert ys[i] in xs;
    }
  }

  /** Cutting a list keeps, of each key, a prefix of its records. */
  lemma {:induction false} WithKeyPrefix(xs: seq<Product>, ys: seq<Product>, k: Key)
    requires ys <= xs
    ensures WithKey(ys, k) <= WithKey(xs, k)
    decreases |ys|
  {
    if ys != [] {
      assert ys[1..] <= xs[1..];
      WithKeyPrefix(xs[1..], ys[1..], k);
    }
  }

  /** The selected records are exactly the normalised in-budget records: each
      one comes from an input record within the budget, and each input record
      within the budget contributes its normalised form. */
  lemma {:induction false} SelectedRecords(results: seq<RawProduct>, minPrice: real, maxPrice: real)
    ensures forall q :: q in Selected(results, minPrice, maxPrice) ==>
              exists p :: p in results && InBudget(p, minPrice, maxPrice) && q == Normalise(p)
    ensures forall p :: p in results && InBudget(p, minPrice, maxPrice) ==>
              Normalise(p) in Selected(results, minPrice, maxPrice)
    decreases |results|
  {
    if results != [] {
      var front, last := results[..|results| - 1], results[|results| - 1];
      SelectedRecords(front, minPrice, maxPrice);
      assert results == front + [last];
      forall p | p in results ensures p in front || p == last {
      }
    }
  }
}
