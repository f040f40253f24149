/**
 * The worked examples of the recommender: three past orders `[1, 2]`,
 * `[1, 3]` and `[2, 3]`, built into a matrix, and what carts `[1]` and
 * `[1, 2]` are recommended from it.
 */
module Scenarios {
  import opened OrderedMaps
  import opened CoOccurrence
  import opened Recommendations

  function SampleOrders(): seq<Order> {
    [[1, 2], [1, 3], [2, 3]]
  }

  /** An order of two different products relates exactly those two, once each way. */
  lemma TwoProductOrder(x: int, y: int, a: int, b: int)
    requires x != y
    ensures OrderPairCount([x, y], a, b) == if (a == x && b == y) || (a == y && b == x) then 1 else 0
  {
    var ms := multiset([x, y]);
    assert ms[a] == (if a == x then 1 else 0) + (if a == y then 1 else 0);
    assert ms[b] == (if b == x then 1 else 0) + (if b == y then 1 else 0);
  }

  /** Each pair of different products of the sample was bought together once. */
  lemma SampleCounts(a: int, b: int)
    ensures PairCount(SampleOrders(), a, b)
         == if a != b && 1 <= a <= 3 && 1 <= b <= 3 then 1 else 0
  {
    var orders := SampleOrders();
    assert orders[..2] == [[1, 2], [1, 3]] && orders[..2][..1] == [[1, 2]];
    assert PairCount(orders, a, b) == PairCount(orders[..2], a, b) + OrderPairCount([2, 3], a, b);
    assert PairCount(orders[..2], a, b) == PairCount([[1, 2]], a, b) + OrderPairCount([1, 3], a, b);
    SingleOrderPairCount([1, 2], a, b);
    TwoProductOrder(1, 2, a, b);
    TwoProductOrder(1, 3, a, b);
    TwoProductOrder(2, 3, a, b);
  }

  /** The matrix built from the sample: every pair of different products among 1, 2 and 3 has count 1. */
  lemma SampleMatrix(m: Matrix)
    requires BuiltFrom(m, SampleOrders())
    ensures forall a, b :: Count(m, a, b) == if a != b && 1 <= a <= 3 && 1 <= b <= 3 then 1 else 0
    ensures forall a, b :: HasEntry(m, a, b) <==> a != b && 1 <= a <= 3 && 1 <= b <= 3
  {
    forall a, b ensures Count(m, a, b) == if a != b && 1 <= a <= 3 && 1 <= b <= 3 then 1 else 0 {
      SampleCounts(a, b);
    }
  }

  /** A sequence holding only `x` and `y` has as many elements as it has copies of them. */
  lemma {:induction false} CountAmong(r: seq<int>, x: int, y: int)
    requires x != y && forall k :: 0 <= k < |r| ==> r[k] == x || r[k] == y
    ensures multiset(r)[x] + multiset(r)[y] == |r|
  {
    if r != [] {
      var n := |r| - 1;
      assert r == r[..n] + [r[n]];
      CountAmong(r[..n], x, y);
    }
  }

  /** Ids without repetition, all `x`, of which there are `limit` unless `x` is one: just `[x]`. */
  lemma OnlyOne(r: seq<int>, x: int, limit: int)
    requires limit > 1 && Distinct(r) && (x !in r ==> |r| == limit)
    requires forall k :: 0 <= k < |r| ==> r[k] == x
    ensures r == [x]
  {
    CountAmong(r, x, x + 1);
    DistinctMultiplicity(r, x);
    DistinctMultiplicity(r, x + 1);
    assert |r| == 1;
  }

  /** Ids without repetition, each `x` or `y`, of which there are `limit` unless both are there. */
  lemma OnlyTwo(r: seq<int>, x: int, y: int, limit: int)
    requires limit > 2 && x != y && Distinct(r) && (x !in r || y !in r ==> |r| == limit)
    requires forall k :: 0 <= k < |r| ==> r[k] == x || r[k] == y
    ensures r == [x, y] || r == [y, x]
  {
    CountAmong(r, x, y);
    DistinctMultiplicity(r, x);
    DistinctMultiplicity(r, y);
    assert multiset(r)[x] == 1 && multiset(r)[y] == 1;
    assert |r| == 2;
  }

  /** Cart `[1, 2]`: only product 3 is recommended, with score 2, one from each cart entry. */
  lemma CartOfOneAndTwo(m: Matrix, cart: seq<int>)
    requires BuiltFrom(m, SampleOrders()) && cart == [1, 2]
    ensures RecommendedIds(cart, m, 5) == [3]
  {
    SampleMatrix(m);
    assert HasEntry(m, cart[0], 3);
    var r := RecommendedIds(cart, m, 5);
    RecommendedIdsSound(cart, m, 5);
    if 3 !in r {
      RecommendedIdsTop(cart, m, 5, 3);
    }
    forall k | 0 <= k < |r| ensures r[k] == 3 {
      assert r[k] in r;
      var i :| 0 <= i < |cart| && HasEntry(m, cart[i], r[k]);
    }
    OnlyOne(r, 3, 5);
  }

  /** Product 3 scores 2 against cart `[1, 2]`, one from each cart entry. */
  lemma CartOfOneAndTwoScore(m: Matrix, cart: seq<int>)
    requires BuiltFrom(m, SampleOrders()) && cart == [1, 2]
    ensures Score(cart, m, 3) == 2
  {
    SampleMatrix(m);
    assert cart[..1] == [1] && cart[..1][..0] == [];
    assert Score(cart[..1][..0], m, 3) == 0;
    assert Score(cart[..1], m, 3) == Score(cart[..1][..0], m, 3) + Count(m, 1, 3);
    assert Score(cart, m, 3) == Score(cart[..1], m, 3) + Count(m, 2, 3);
  }

  /** Cart `[1]`: products 2 and 3 tie at score 1 and both are recommended, in one order or the other. */
  lemma CartOfOne(m: Matrix, cart: seq<int>)
    requires BuiltFrom(m, SampleOrders()) && cart == [1]
    ensures RecommendedIds(cart, m, 5) == [2, 3] || RecommendedIds(cart, m, 5) == [3, 2]
  {
    SampleMatrix(m);
    assert HasEntry(m, cart[0], 2) && HasEntry(m, cart[0], 3);
    var r := RecommendedIds(cart, m, 5);
    RecommendedIdsSound(cart, m, 5);
    if 2 !in r {
      RecommendedIdsTop(cart, m, 5, 2);
    }
    if 3 !in r {
      RecommendedIdsTop(cart, m, 5, 3);
    }
    forall k | 0 <= k < |r| ensures r[k] == 2 || r[k] == 3 {
      assert r[k] in r;
      var i :| 0 <= i < |cart| && HasEntry(m, cart[i], r[k]);
    }
    OnlyTwo(r, 2, 3, 5);
  }

  /**
   * A stored matrix `{p: {r: 3}}` and a cart holding only `p`: `r` is the one
   * recommendation.
   */
  lemma SingleEntryMatrix(m: Matrix, cart: seq<int>, p: int, r: int)
    requires p != r && cart == [p]
    requires m == OrderedMap([p], map[p := OrderedMap([r], map[r := 3])])
    ensures RecommendedIds(cart, m, 5) == [r]
  {
    assert WellFormed(m);
    assert HasEntry(m, cart[0], r);
    var ids := RecommendedIds(cart, m, 5);
    RecommendedIdsSound(cart, m, 5);
    if r !in ids {
      RecommendedIdsTop(cart, m, 5, r);
    }
    forall k | 0 <= k < |ids| ensures ids[k] == r {
      assert ids[k] in ids;
      var i :| 0 <= i < |cart| && HasEntry(m, cart[i], ids[k]);
    }
    OnlyOne(ids, r, 5);
  }
}
