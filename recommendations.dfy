/**
 * The co-occurrence recommender (`RecommendationService`): builds the matrix
 * from past orders and writes it to its store, reads it back, and ranks the
 * products related to a cart.
 */
module Recommendations {
  import opened Wrappers
  import opened OrderedMaps
  import opened CoOccurrence
  import opened Ranking

  /** The score table `$scores`: candidate id => accumulated score, in first-insertion order. */
  type Scores = OrderedMap<nat>

  /** `$scores[$c] ?? 0` */
  function ScoreOf(scores: Scores, c: int): nat {
    if c in scores.vals then scores.vals[c] else 0
  }

  /** The score table after the inner loop has visited the first `n` related ids of `row`. */
  function AddRow(scores: Scores, cart: seq<int>, row: Row, n: nat): (r: Scores)
    requires Valid(scores) && Valid(row) && n <= |row.keys|
    ensures Valid(r)
  {
    if n == 0 then scores
    else
      var acc := AddRow(scores, cart, row, n - 1);
      var related := row.keys[n - 1];
      if related in cart then acc
      else Put(acc, related, ScoreOf(acc, related) + row.vals[related])
  }

  /** The score table after the outer loop has visited the first `n` cart entries. */
  function ScoresUpTo(cart: seq<int>, m: Matrix, n: nat): (r: Scores)
    requires WellFormed(m) && n <= |cart|
    ensures Valid(r)
  {
    if n == 0 then Empty()
    else
      var acc := ScoresUpTo(cart, m, n - 1);
      var pid := cart[n - 1];
      if pid in m.vals then AddRow(acc, cart, m.vals[pid], |m.vals[pid].keys|) else acc
  }

  /** The finished score table. */
  function ScoreTable(cart: seq<int>, m: Matrix): (r: Scores)
    requires WellFormed(m)
    ensures Valid(r)
  {
    ScoresUpTo(cart, m, |cart|)
  }

  /** The intended score of `c`: the sum over the cart's entries `pid` of `matrix[pid][c]`. */
  function Score(cart: seq<int>, m: Matrix, c: int): nat {
    if cart == [] then 0
    else Score(cart[..|cart| - 1], m, c) + Count(m, cart[|cart| - 1], c)
  }

  /** A product related to some cart entry that is not itself in the cart. */
  ghost predicate Candidate(cart: seq<int>, m: Matrix, c: int) {
    c !in cart && exists i :: 0 <= i < |cart| && HasEntry(m, cart[i], c)
  }

  /** The score table as a list of entries, in its key order. */
  function Entries(s: Scores): (r: seq<Scored>)
    requires Valid(s)
    ensures |r| == |s.keys|
    ensures forall i :: 0 <= i < |r| ==> s.keys[i] in s.vals && r[i] == Scored(s.keys[i], s.vals[s.keys[i]])
  {
    KeysInVals(s);
    seq(|s.keys|, i requires 0 <= i < |s.keys| => Scored(s.keys[i], s.vals[s.keys[i]]))
  }

  /** The score table after `arsort`. */
  function Ranked(cart: seq<int>, m: Matrix): seq<Scored>
    requires WellFormed(m)
  {
    SortDesc(Entries(ScoreTable(cart, m)))
  }

  /** `$recommendedIds`: the first `limit` keys of the sorted table; nothing for an empty matrix. */
  function RecommendedIds(cart: seq<int>, m: Matrix, limit: int): (r: seq<int>)
    requires WellFormed(m)
    ensures limit >= 0 ==> |r| <= limit
    ensures m.keys != [] ==> |r| == SliceLength(|ScoreTable(cart, m).keys|, limit)
  {
    if m.keys == [] then []
    else
      var ranked := Ranked(cart, m);
      Ids(ranked)[..SliceLength(|ranked|, limit)]
  }

  /** The inner loop adds each related id's count once, skipping ids in the cart. */
  lemma {:induction false} AddRowMeaning(s: Scores, cart: seq<int>, row: Row, n: nat)
    requires Valid(s) && Valid(row) && n <= |row.keys|
    ensures forall c :: c in AddRow(s, cart, row, n).vals <==> c in s.vals || (c !in cart && c in row.keys[..n])
    ensures forall c :: ScoreOf(AddRow(s, cart, row, n), c)
                     == ScoreOf(s, c) + (if c !in cart && c in row.keys[..n] then row.vals[c] else 0)
  {
    if n > 0 {
      AddRowMeaning(s, cart, row, n - 1);
      var related := row.keys[n - 1];
      assert row.keys[..n] == row.keys[..n - 1] + [related];
      assert related !in row.keys[..n - 1];
    }
  }

  /** The outer loop gives each candidate its summed score, and holds no other key. */
  lemma {:induction false} ScoresUpToMeaning(cart: seq<int>, m: Matrix, n: nat)
    requires WellFormed(m) && n <= |cart|
    ensures forall c :: c in ScoresUpTo(cart, m, n).vals
                    <==> c !in cart && exists i :: 0 <= i < n && HasEntry(m, cart[i], c)
    ensures forall c :: c !in cart ==> ScoreOf(ScoresUpTo(cart, m, n), c) == Score(cart[..n], m, c)
  {
    if n == 0 {
      assert cart[..0] == [];
    } else {
      ScoresUpToMeaning(cart, m, n - 1);
      assert cart[..n][..n - 1] == cart[..n - 1];
      var pid := cart[n - 1];
      if pid in m.vals {
        var row := m.vals[pid];
        AddRowMeaning(ScoresUpTo(cart, m, n - 1), cart, row, |row.keys|);
        assert row.keys[..|row.keys|] == row.keys;
      }
      forall c | c in ScoresUpTo(cart, m, n).vals
        ensures exists i :: 0 <= i < n && HasEntry(m, cart[i], c)
      {
        if !HasEntry(m, pid, c) {
          assert c in ScoresUpTo(cart, m, n - 1).vals;
        }
      }
    }
  }

  /** The finished table holds exactly the candidates, each with its intended score. */
  lemma ScoreTableMeaning(cart: seq<int>, m: Matrix)
    requires WellFormed(m)
    ensures forall c :: c in ScoreTable(cart, m).vals <==> Candidate(cart, m, c)
    ensures forall c :: c in ScoreTable(cart, m).vals ==> ScoreTable(cart, m).vals[c] == Score(cart, m, c)
  {
    ScoresUpToMeaning(cart, m, |cart|);
    assert cart[..|cart|] == cart;
  }

  /** No id is ranked twice. */
  lemma RankedDistinct(cart: seq<int>, m: Matrix)
    requires WellFormed(m)
    ensures Distinct(Ids(Ranked(cart, m)))
  {
    var entries := Entries(ScoreTable(cart, m));
    assert Ids(entries) == ScoreTable(cart, m).keys;
    SortDescDistinctIds(entries);
  }

  /** Every ranked entry is a candidate with its intended score, and every candidate is ranked. */
  lemma RankedMeaning(cart: seq<int>, m: Matrix)
    requires WellFormed(m)
    ensures forall k :: 0 <= k < |Ranked(cart, m)| ==>
              Candidate(cart, m, Ranked(cart, m)[k].id) && Ranked(cart, m)[k].score == Score(cart, m, Ranked(cart, m)[k].id)
    ensures forall c :: Candidate(cart, m, c) ==> c in Ids(Ranked(cart, m))
  {
    var table := ScoreTable(cart, m);
    var entries := Entries(table);
    var ranked := Ranked(cart, m);
    ScoreTableMeaning(cart, m);
    SortDescEntries(entries);
    forall k | 0 <= k < |ranked|
      ensures Candidate(cart, m, ranked[k].id) && ranked[k].score == Score(cart, m, ranked[k].id)
    {
      assert ranked[k] in entries;
      var i :| 0 <= i < |entries| && entries[i] == ranked[k];
      assert table.keys[i] in table.vals;
    }
    forall c | Candidate(cart, m, c)
      ensures c in Ids(ranked)
    {
      assert c in table.keys;
      var i :| 0 <= i < |table.keys| && table.keys[i] == c;
      assert entries[i] in ranked;
      var k :| 0 <= k < |ranked| && entries[i] == ranked[k];
      assert Ids(ranked)[k] == c;
    }
  }

  /**
   * The recommended ids are candidates (never in the cart), without
   * repetition, at most `limit` of them, in non-increasing score order.
   */
  lemma RecommendedIdsSound(cart: seq<int>, m: Matrix, limit: int)
    requires WellFormed(m)
    ensures forall id :: id in RecommendedIds(cart, m, limit) ==> id !in cart && Candidate(cart, m, id)
    ensures Distinct(RecommendedIds(cart, m, limit))
    ensures limit >= 0 ==> |RecommendedIds(cart, m, limit)| <= limit
    ensures forall p, q :: 0 <= p < q < |RecommendedIds(cart, m, limit)| ==>
              Score(cart, m, RecommendedIds(cart, m, limit)[p]) >= Score(cart, m, RecommendedIds(cart, m, limit)[q])
  {
    var r := RecommendedIds(cart, m, limit);
    if m.keys != [] {
      RankedMeaning(cart, m);
      RankedDistinct(cart, m);
      var ranked := Ranked(cart, m);
      assert forall k :: 0 <= k < |r| ==> r[k] == ranked[k].id;
    }
  }

  /**
   * Nothing better is left out: a candidate that is not recommended scores no
   * more than any recommended id, and when `limit` is not negative it is left
   * out only because `limit` ids were already taken.
   */
  lemma RecommendedIdsTop(cart: seq<int>, m: Matrix, limit: int, c: int)
    requires WellFormed(m) && Candidate(cart, m, c) && c !in RecommendedIds(cart, m, limit)
    ensures forall k :: 0 <= k < |RecommendedIds(cart, m, limit)| ==>
              Score(cart, m, RecommendedIds(cart, m, limit)[k]) >= Score(cart, m, c)
    ensures limit >= 0 ==> |RecommendedIds(cart, m, limit)| == limit
  {
    assert m.keys != [] by {
      var i :| 0 <= i < |cart| && HasEntry(m, cart[i], c);
      assert cart[i] in m.keys;
    }
    RankedMeaning(cart, m);
    var ranked := Ranked(cart, m);
    var r := RecommendedIds(cart, m, limit);
    var k :| 0 <= k < |ranked| && Ids(ranked)[k] == c;
    assert k >= |r|;
  }

  /**
   * The cut keeps the earliest ties: a candidate left out that scores the same
   * as a recommended id entered the score table after it.
   */
  lemma RecommendedIdsCutTies(cart: seq<int>, m: Matrix, limit: int, c: int, k: nat)
    requires WellFormed(m) && Candidate(cart, m, c) && c !in RecommendedIds(cart, m, limit)
    requires k < |RecommendedIds(cart, m, limit)|
    requires Score(cart, m, RecommendedIds(cart, m, limit)[k]) == Score(cart, m, c)
    ensures exists i, j :: 0 <= i < j < |ScoreTable(cart, m).keys|
                           && ScoreTable(cart, m).keys[i] == RecommendedIds(cart, m, limit)[k]
                           && ScoreTable(cart, m).keys[j] == c
  {
    RankedMeaning(cart, m);
    var ranked := Ranked(cart, m);
    var r := RecommendedIds(cart, m, limit);
    var kc :| 0 <= kc < |ranked| && Ids(ranked)[kc] == c;
    assert kc >= |r| && r[k] == ranked[k].id;
    var entries := Entries(ScoreTable(cart, m));
    SortDescKeepsTies(entries, k, kc);
    var i, j :| 0 <= i < j < |entries| && entries[i] == ranked[k] && entries[j] == ranked[kc];
  }

  /**
   * Ties keep first-insertion order: of two recommended ids with equal score,
   * the one listed first entered the score table first.
   */
  lemma RecommendedIdsTies(cart: seq<int>, m: Matrix, limit: int, p: nat, q: nat)
    requires WellFormed(m)
    requires p < q < |RecommendedIds(cart, m, limit)|
    requires Score(cart, m, RecommendedIds(cart, m, limit)[p]) == Score(cart, m, RecommendedIds(cart, m, limit)[q])
    ensures exists i, j :: 0 <= i < j < |ScoreTable(cart, m).keys|
              && ScoreTable(cart, m).keys[i] == RecommendedIds(cart, m, limit)[p]
              && ScoreTable(cart, m).keys[j] == RecommendedIds(cart, m, limit)[q]
  {
    RankedMeaning(cart, m);
    var entries := Entries(ScoreTable(cart, m));
    var ranked := Ranked(cart, m);
    SortDescKeepsTies(entries, p, q);
    var i, j :| 0 <= i < j < |entries| && entries[i] == ranked[p] && entries[j] == ranked[q];
  }

  /** With no matrix there is nothing to recommend. */
  lemma RecommendedIdsEmptyMatrix(cart: seq<int>, m: Matrix, limit: int)
    requires WellFormed(m) && m.keys == []
    ensures RecommendedIds(cart, m, limit) == []
  {
  }

  /**
   * The scoring loops of `recommendForCart`: for each cart entry with a row,
   * add every related id that is not in the cart to the score table with
   * that row's count.
   */
  method ScoreCart(cart: seq<int>, matrix: Matrix) returns (scores: Scores)
    requires WellFormed(matrix)
    ensures scores == ScoreTable(cart, matrix)
    ensures forall c :: c in scores.vals <==> Candidate(cart, matrix, c)
    ensures forall c :: c in scores.vals ==> scores.vals[c] == Score(cart, matrix, c)
  {
    scores := Empty();
    for i := 0 to |cart|
      invariant scores == ScoresUpTo(cart, matrix, i)
    {
      var pid := cart[i];
      if pid !in matrix.vals {
        continue;
      }
      var row := matrix.vals[pid];
      ghost var before := scores;
      for j := 0 to |row.keys|
        invariant scores == AddRow(before, cart, row, j)
      {
        var relatedId := row.keys[j];
        if relatedId in cart {
          continue;
        }
        scores := Put(scores, relatedId, ScoreOf(scores, relatedId) + row.vals[relatedId]);
      }
    }
    ScoreTableMeaning(cart, matrix);
  }

  class RecommendationService {
    /** The JSON file at the matrix path, decoded; `None` while no file exists. */
    var store: Option<Matrix>

    ghost predicate StoreWellFormed()
      reads this
    {
      store.Some? ==> WellFormed(store.value)
    }

    /** A service over whatever the store holds now. */
    constructor (onDisk: Option<Matrix>)
      requires onDisk.Some? ==> WellFormed(onDisk.value)
      ensures store == onDisk && StoreWellFormed()
    {
      store := onDisk;
    }

    /**
     * `buildFromOrders`: counts every ordered pair of positions of each order
     * whose ids differ, writes the matrix to the store and returns it.
     */
    method BuildFromOrders(orders: seq<Order>) returns (matrix: Matrix)
      modifies this
      ensures WellFormed(matrix)
      ensures forall a, b :: Count(matrix, a, b) == PairCount(orders, a, b)
      ensures forall a, b :: HasEntry(matrix, a, b) <==> Count(matrix, a, b) >= 1
      ensures forall a :: a in matrix.vals ==> matrix.vals[a].keys != []
      ensures store == Some(matrix) && StoreWellFormed()
      ensures LoadMatrix() == matrix
    {
      matrix := Empty();
      for i := 0 to |orders|
        invariant WellFormed(matrix) && NoEmptyEntries(matrix)
        invariant forall a, b :: Count(matrix, a, b) == PairCount(orders[..i], a, b)
      {
        var productIds := orders[i];
        ghost var before := matrix;
        TalliedStart(matrix, productIds);
        for j := 0 to |productIds|
          invariant WellFormed(matrix) && NoEmptyEntries(matrix)
          invariant Tallied(matrix, before, productIds, j, 0)
        {
          var p1 := productIds[j];
          for k := 0 to |productIds|
            invariant WellFormed(matrix) && NoEmptyEntries(matrix)
            invariant Tallied(matrix, before, productIds, j, k)
          {
            var p2 := productIds[k];
            TalliedInnerStep(matrix, before, productIds, j, k);
            if p1 == p2 {
              continue;
            }
            matrix := Increment(matrix, p1, p2);
          }
          TalliedOuterStep(matrix, before, productIds, j);
        }
        TalliedOrder(matrix, before, orders, i);
      }
      assert orders[..|orders|] == orders;
      store := Some(matrix);
    }

    /** `loadMatrix`: the stored matrix, or the empty one when nothing was stored. */
    function LoadMatrix(): (m: Matrix)
      reads this
      requires StoreWellFormed()
      ensures WellFormed(m)
      ensures store == None ==> m.keys == [] && m.vals == map[]
      ensures store.Some? ==> m == store.value
    {
      match store
      case None => Empty()
      case Some(m) => m
    }

    /**
     * `recommendForCart` up to `$recommendedIds`: scores the products related
     * to the cart's entries, sorts them with `arsort` and keeps the first
     * `limit` ids. It reads the store and changes nothing.
     */
    method RecommendForCart(cart: seq<int>, limit: int := 5) returns (ids: seq<int>)
      requires StoreWellFormed()
      ensures ids == RecommendedIds(cart, LoadMatrix(), limit)
      ensures forall id :: id in ids ==> id !in cart
      ensures Distinct(ids)
      ensures limit >= 0 ==> |ids| <= limit
      ensures forall p, q :: 0 <= p < q < |ids| ==>
                Score(cart, LoadMatrix(), ids[p]) >= Score(cart, LoadMatrix(), ids[q])
    {
      var matrix := LoadMatrix();
      if matrix.keys == [] {
        return [];
      }
      var scores := ScoreCart(cart, matrix);
      var ranked := SortDesc(Entries(scores));
      ids := Ids(ranked)[..SliceLength(|ranked|, limit)];
      RecommendedIdsSound(cart, matrix, limit);
    }
  }
}
