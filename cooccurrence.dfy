/**
 * The co-occurrence matrix `matrix[p1][p2]` of the recommender and what a
 * build from past orders puts into it.
 */
module CoOccurrence {
  import opened OrderedMaps

  /** Related product id -> count, in insertion order. */
  type Row = OrderedMap<nat>

  /** Product id -> row, in insertion order. */
  type Matrix = OrderedMap<Row>

  /** The product ids of one past order, one per ordered product line. */
  type Order = seq<int>

  ghost predicate WellFormed(m: Matrix) {
    Valid(m) && forall a :: a in m.vals ==> Valid(m.vals[a])
  }

  /** `$matrix[$a][$b] ?? 0` */
  function Count(m: Matrix, a: int, b: int): nat {
    if a in m.vals && b in m.vals[a].vals then m.vals[a].vals[b] else 0
  }

  /** `isset($matrix[$a][$b])` */
  predicate HasEntry(m: Matrix, a: int, b: int) {
    a in m.vals && b in m.vals[a].vals
  }

  function RowOf(m: Matrix, a: int): Row {
    if a in m.vals then m.vals[a] else Empty()
  }

  /** `$matrix[$a][$b] = ($matrix[$a][$b] ?? 0) + 1`: one more co-occurrence, nothing else moves. */
  function Increment(m: Matrix, a: int, b: int): (r: Matrix)
    requires WellFormed(m)
    ensures WellFormed(r)
    ensures forall x, y :: Count(r, x, y) == Count(m, x, y) + (if x == a && y == b then 1 else 0)
    ensures forall x, y :: HasEntry(r, x, y) <==> HasEntry(m, x, y) || (x == a && y == b)
    ensures forall x :: x in r.vals <==> x in m.vals || x == a
    ensures r.vals[a].keys != []
    ensures forall x :: x in m.vals && x != a ==> r.vals[x] == m.vals[x]
  {
    Put(m, a, Put(RowOf(m, a), b, Count(m, a, b) + 1))
  }

  /**
   * What one order credits to `matrix[a][b]`: one for every pair of positions
   * holding a and b, so duplicated lines multiply; nothing when a == b.
   */
  function OrderPairCount(p: Order, a: int, b: int): nat {
    if a == b then 0 else multiset(p)[a] * multiset(p)[b]
  }

  /** What all `orders` credit to `matrix[a][b]`, summed order by order. */
  function PairCount(orders: seq<Order>, a: int, b: int): nat {
    if orders == [] then 0
    else PairCount(orders[..|orders| - 1], a, b) + OrderPairCount(orders[|orders| - 1], a, b)
  }

  /** Pairs of equal ids are skipped, so no product is ever related to itself. */
  lemma {:induction false} PairCountNoSelf(orders: seq<Order>, a: int)
    ensures PairCount(orders, a, a) == 0
  {
    if orders != [] {
      PairCountNoSelf(orders[..|orders| - 1], a);
    }
  }

  /** Every pair is visited in both orders, so the counts are symmetric. */
  lemma {:induction false} PairCountSymmetric(orders: seq<Order>, a: int, b: int)
    ensures PairCount(orders, a, b) == PairCount(orders, b, a)
  {
    if orders != [] {
      PairCountSymmetric(orders[..|orders| - 1], a, b);
      var p := orders[|orders| - 1];
      assert multiset(p)[a] * multiset(p)[b] == multiset(p)[b] * multiset(p)[a];
    }
  }

  /** Counts over two batches of orders add up: nothing is reset or deduplicated between orders. */
  lemma {:induction false} PairCountConcat(xs: seq<Order>, ys: seq<Order>, a: int, b: int)
    ensures PairCount(xs + ys, a, b) == PairCount(xs, a, b) + PairCount(ys, a, b)
  {
    if ys == [] {
      assert xs + ys == xs;
    } else {
      var n := |ys| - 1;
      assert (xs + ys)[..|xs + ys| - 1] == xs + ys[..n];
      assert (xs + ys)[|xs + ys| - 1] == ys[n];
      PairCountConcat(xs, ys[..n], a, b);
    }
  }

  /** A single order credits exactly count(P, a) * count(P, b) when a != b. */
  lemma SingleOrderPairCount(p: Order, a: int, b: int)
    ensures PairCount([p], a, b) == if a == b then 0 else multiset(p)[a] * multiset(p)[b]
  {
    assert [p][..0] == [];
  }

  /** A count is positive only for two different products that were bought together at least once. */
  lemma {:induction false} PairCountPositive(orders: seq<Order>, a: int, b: int)
    requires PairCount(orders, a, b) > 0
    ensures a != b
    ensures exists k :: 0 <= k < |orders| && a in orders[k] && b in orders[k]
  {
    var n := |orders| - 1;
    var p := orders[n];
    if OrderPairCount(p, a, b) > 0 {
      assert multiset(p)[a] > 0 && multiset(p)[b] > 0;
      assert a in orders[n] && b in orders[n];
    } else {
      PairCountPositive(orders[..n], a, b);
      var k :| 0 <= k < n && a in orders[..n][k] && b in orders[..n][k];
      assert orders[k] == orders[..n][k];
    }
  }

  /** An id that occurs once in a sequence of distinct ids is counted once. */
  lemma {:induction false} DistinctOccursOnce(p: Order, a: int)
    requires Distinct(p) && a in p
    ensures multiset(p)[a] == 1
  {
    var n := |p| - 1;
    assert p == p[..n] + [p[n]];
    if p[n] == a {
      assert a !in p[..n];
    } else {
      assert Distinct(p[..n]);
      DistinctOccursOnce(p[..n], a);
    }
  }

  /** One order of distinct products relates each pair of them exactly once. */
  lemma DistinctOrderCountsOne(p: Order, a: int, b: int)
    requires Distinct(p) && a in p && b in p && a != b
    ensures PairCount([p], a, b) == 1
  {
    SingleOrderPairCount(p, a, b);
    DistinctOccursOnce(p, a);
    DistinctOccursOnce(p, b);
  }

  /** What a build from `orders` promises about the matrix it returns. */
  ghost predicate BuiltFrom(m: Matrix, orders: seq<Order>) {
    WellFormed(m)
    && (forall a, b :: Count(m, a, b) == PairCount(orders, a, b))
    && (forall a, b :: HasEntry(m, a, b) <==> Count(m, a, b) >= 1)
  }

  /**
   * A built matrix is symmetric, relates no product to itself, and relates
   * two products only when some order holds both.
   */
  lemma BuiltMatrixFacts(m: Matrix, orders: seq<Order>)
    requires BuiltFrom(m, orders)
    ensures forall a, b :: Count(m, a, b) == Count(m, b, a)
    ensures forall a :: !HasEntry(m, a, a)
    ensures forall a, b :: HasEntry(m, a, b) ==> exists k :: 0 <= k < |orders| && a in orders[k] && b in orders[k]
  {
    forall a, b ensures Count(m, a, b) == Count(m, b, a) {
      PairCountSymmetric(orders, a, b);
    }
    forall a ensures !HasEntry(m, a, a) {
      PairCountNoSelf(orders, a);
    }
    forall a, b | HasEntry(m, a, b)
      ensures exists k :: 0 <= k < |orders| && a in orders[k] && b in orders[k]
    {
      PairCountPositive(orders, a, b);
    }
  }

  /**
   * What the build loops have credited to `matrix[a][b]` for order `p` once the
   * outer loop has finished positions `..j` and the inner loop, at position j,
   * has finished positions `..k`.
   */
  ghost function Credited(p: Order, j: nat, k: nat, a: int, b: int): nat
    requires j <= |p| && k <= |p|
  {
    if a == b then 0
    else multiset(p[..j])[a] * multiset(p)[b] + (if j < |p| && p[j] == a then multiset(p[..k])[b] else 0)
  }

  lemma CreditedStart(p: Order, a: int, b: int)
    ensures Credited(p, 0, 0, a, b) == 0
  {
    assert p[..0] == [];
  }

  /** Visiting position k of the inner loop credits exactly the pair (p[j], p[k]) unless the ids are equal. */
  lemma CreditedInnerStep(p: Order, j: nat, k: nat, a: int, b: int)
    requires j < |p| && k < |p|
    ensures Credited(p, j, k + 1, a, b)
         == Credited(p, j, k, a, b) + (if a == p[j] && b == p[k] && p[j] != p[k] then 1 else 0)
  {
    assert p[..k + 1] == p[..k] + [p[k]];
  }

  /** Finishing the inner loop at position j is the same as starting the outer loop at j + 1. */
  lemma CreditedOuterStep(p: Order, j: nat, a: int, b: int)
    requires j < |p|
    ensures Credited(p, j, |p|, a, b) == Credited(p, j + 1, 0, a, b)
  {
    assert p[..j + 1] == p[..j] + [p[j]];
    assert p[..|p|] == p;
    if a != b {
      var x, y := multiset(p[..j])[a], multiset(p)[b];
      if p[j] == a {
        assert multiset(p[..j + 1])[a] == x + 1;
        assert (x + 1) * y == x * y + y;
      } else {
        assert multiset(p[..j + 1])[a] == x;
      }
    }
  }

  /** After the outer loop, the order has credited its whole pair count. */
  lemma CreditedEnd(p: Order, a: int, b: int)
    ensures Credited(p, |p|, 0, a, b) == OrderPairCount(p, a, b)
  {
    assert p[..|p|] == p;
  }

  /** Counts are positive where present, and every row that exists holds an entry. */
  ghost predicate NoEmptyEntries(m: Matrix) {
    (forall a, b :: HasEntry(m, a, b) ==> Count(m, a, b) >= 1)
    && (forall a :: a in m.vals ==> m.vals[a].keys != [])
  }

  /** `m` is `before` plus what order `p` credits up to outer position j and inner position k. */
  ghost predicate Tallied(m: Matrix, before: Matrix, p: Order, j: nat, k: nat)
    requires j <= |p| && k <= |p|
  {
    forall a, b :: Count(m, a, b) == Count(before, a, b) + Credited(p, j, k, a, b)
  }

  lemma TalliedStart(m: Matrix, p: Order)
    ensures Tallied(m, m, p, 0, 0)
  {
    forall a, b ensures Credited(p, 0, 0, a, b) == 0 {
      CreditedStart(p, a, b);
    }
  }

  /** One step of the inner loop: the pair (p[j], p[k]) is counted unless the ids are equal. */
  lemma TalliedInnerStep(m: Matrix, before: Matrix, p: Order, j: nat, k: nat)
    requires j < |p| && k < |p| && WellFormed(m) && NoEmptyEntries(m) && Tallied(m, before, p, j, k)
    ensures p[j] == p[k] ==> Tallied(m, before, p, j, k + 1)
    ensures p[j] != p[k] ==>
              Tallied(Increment(m, p[j], p[k]), before, p, j, k + 1) && NoEmptyEntries(Increment(m, p[j], p[k]))
  {
    forall a, b ensures Credited(p, j, k + 1, a, b)
                     == Credited(p, j, k, a, b) + (if a == p[j] && b == p[k] && p[j] != p[k] then 1 else 0)
    {
      CreditedInnerStep(p, j, k, a, b);
    }
  }

  lemma TalliedOuterStep(m: Matrix, before: Matrix, p: Order, j: nat)
    requires j < |p| && Tallied(m, before, p, j, |p|)
    ensures Tallied(m, before, p, j + 1, 0)
  {
    forall a, b ensures Credited(p, j, |p|, a, b) == Credited(p, j + 1, 0, a, b) {
      CreditedOuterStep(p, j, a, b);
    }
  }

  /** After order i, the matrix holds the pair counts of the first i + 1 orders. */
  lemma TalliedOrder(m: Matrix, before: Matrix, orders: seq<Order>, i: nat)
    requires i < |orders| && Tallied(m, before, orders[i], |orders[i]|, 0)
    requires forall a, b :: Count(before, a, b) == PairCount(orders[..i], a, b)
    ensures forall a, b :: Count(m, a, b) == PairCount(orders[..i + 1], a, b)
  {
    forall a, b ensures Count(m, a, b) == PairCount(orders[..i + 1], a, b) {
      CreditedEnd(orders[i], a, b);
      PairCountStep(orders, i, a, b);
    }
  }

  lemma PairCountStep(orders: seq<Order>, i: nat, a: int, b: int)
    requires i < |orders|
    ensures PairCount(orders[..i + 1], a, b) == PairCount(orders[..i], a, b) + OrderPairCount(orders[i], a, b)
  {
    assert orders[..i + 1][..i] == orders[..i];
  }
}
