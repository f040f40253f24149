/**
 * The two PHP library calls that turn the score table into the recommended
 * ids: `arsort` (a stable sort by descending value, keeping each key with its
 * value) and `array_slice($ids, 0, $limit)`.
 */
module Ranking {
  import opened OrderedMaps

  /** One entry `$relatedId => $score` of the score table. */
  datatype Scored = Scored(id: int, score: nat)

  function Ids(s: seq<Scored>): (r: seq<int>)
    ensures |r| == |s| && forall i :: 0 <= i < |s| ==> r[i] == s[i].id
  {
    seq(|s|, i requires 0 <= i < |s| => s[i].id)
  }

  predicate SortedDesc(s: seq<Scored>) {
    forall i, j :: 0 <= i < j < |s| ==> s[i].score >= s[j].score
  }

  /** The entries of `s` whose score is `v`, in their order in `s`. */
  function WithScore(s: seq<Scored>, v: nat): seq<Scored> {
    if s == [] then []
    else (if s[0].score == v then [s[0]] else []) + WithScore(s[1..], v)
  }

  /** Insert `x` into a sorted sequence after every entry scoring at least as much. */
  function InsertDesc(x: Scored, s: seq<Scored>): (r: seq<Scored>)
    requires SortedDesc(s)
    ensures SortedDesc(r)
    ensures multiset(r) == multiset(s) + multiset{x}
    ensures r[0] == x || (s != [] && r[0] == s[0])
  {
    if s == [] then [x]
    else if s[0].score >= x.score then
      assert s == [s[0]] + s[1..];
      var t := InsertDesc(x, s[1..]);
      ConsSorted(s[0], t);
      [s[0]] + t
    else
      ConsSorted(x, s);
      [x] + s
  }

  /** An entry scoring at least as much as the head of a sorted sequence can go in front. */
  lemma ConsSorted(h: Scored, t: seq<Scored>)
    requires SortedDesc(t) && (t != [] ==> h.score >= t[0].score)
    ensures SortedDesc([h] + t)
  {
    var r := [h] + t;
    forall i, j | 0 <= i < j < |r| ensures r[i].score >= r[j].score {
      if i == 0 && j > 1 {
        assert t[0].score >= t[j - 1].score;
      }
    }
  }

  /** `arsort`: sorts by descending score; equal scores keep their relative order. */
  function SortDesc(s: seq<Scored>): (r: seq<Scored>)
    ensures SortedDesc(r)
    ensures multiset(r) == multiset(s)
  {
    if s == [] then []
    else
      assert s == s[..|s| - 1] + [s[|s| - 1]];
      InsertDesc(s[|s| - 1], SortDesc(s[..|s| - 1]))
  }

  lemma {:induction false} WithScoreConcat(a: seq<Scored>, b: seq<Scored>, v: nat)
    ensures WithScore(a + b, v) == WithScore(a, v) + WithScore(b, v)
  {
    if a == [] {
      assert a + b == b;
    } else {
      var head := if a[0].score == v then [a[0]] else [];
      var ab := a + b;
      assert ab[0] == a[0] && ab[1..] == a[1..] + b;
      WithScoreConcat(a[1..], b, v);
      calc {
        WithScore(ab, v);
        head + WithScore(a[1..] + b, v);
        head + (WithScore(a[1..], v) + WithScore(b, v));
        (head + WithScore(a[1..], v)) + WithScore(b, v);
        WithScore(a, v) + WithScore(b, v);
      }
    }
  }

  lemma {:induction false} WithScoreNone(s: seq<Scored>, v: nat)
    requires forall i :: 0 <= i < |s| ==> s[i].score != v
    ensures WithScore(s, v) == []
  {
    if s != [] {
      WithScoreNone(s[1..], v);
    }
  }

  lemma WithScoreCons(h: Scored, t: seq<Scored>, v: nat)
    ensures WithScore([h] + t, v) == (if h.score == v then [h] else []) + WithScore(t, v)
  {
    assert ([h] + t)[0] == h && ([h] + t)[1..] == t;
  }

  /** Where `x` scores more than the head, it goes in front, after nothing of its own score. */
  lemma InsertDescFront(x: Scored, s: seq<Scored>, v: nat)
    requires SortedDesc(s) && (s == [] || s[0].score < x.score)
    ensures WithScore(InsertDesc(x, s), v) == WithScore(s, v) + (if x.score == v then [x] else [])
  {
    assert InsertDesc(x, s) == [x] + s;
    WithScoreCons(x, s, v);
    if x.score == v && s != [] {
      assert forall i :: 0 <= i < |s| ==> s[i].score <= s[0].score;
      WithScoreNone(s, v);
    }
  }

  /** Inserting `x` puts it after every entry of equal score already there. */
  lemma {:induction false} InsertDescStable(x: Scored, s: seq<Scored>, v: nat)
    requires SortedDesc(s)
    ensures WithScore(InsertDesc(x, s), v) == WithScore(s, v) + (if x.score == v then [x] else [])
  {
    if s == [] || s[0].score < x.score {
      InsertDescFront(x, s, v);
    } else {
      var tail := if x.score == v then [x] else [];
      var h := if s[0].score == v then [s[0]] else [];
      var t := InsertDesc(x, s[1..]);
      calc {
        WithScore(InsertDesc(x, s), v);
        WithScore([s[0]] + t, v);
        { WithScoreCons(s[0], t, v); }
        h + WithScore(t, v);
        { InsertDescStable(x, s[1..], v); }
        h + (WithScore(s[1..], v) + tail);
        (h + WithScore(s[1..], v)) + tail;
        { WithScoreCons(s[0], s[1..], v); assert [s[0]] + s[1..] == s; }
        WithScore(s, v) + tail;
      }
    }
  }

  /** `arsort` is stable: the entries of any one score come out in the order they went in. */
  lemma {:induction false} SortDescStable(s: seq<Scored>, v: nat)
    ensures WithScore(SortDesc(s), v) == WithScore(s, v)
  {
    if s != [] {
      var n := |s| - 1;
      var init, last := s[..n], s[n];
      var tail := if last.score == v then [last] else [];
      calc {
        WithScore(SortDesc(s), v);
        WithScore(InsertDesc(last, SortDesc(init)), v);
        { InsertDescStable(last, SortDesc(init), v); }
        WithScore(SortDesc(init), v) + tail;
        { SortDescStable(init, v); }
        WithScore(init, v) + tail;
        { assert WithScore([last], v) == tail + WithScore([], v); }
        WithScore(init, v) + WithScore([last], v);
        { WithScoreConcat(init, [last], v); }
        WithScore(init + [last], v);
        { assert init + [last] == s; }
        WithScore(s, v);
      }
    }
  }

  /** An entry of score v at index k of `s` is in `WithScore(s, v)`. */
  lemma {:induction false} WithScoreHas(s: seq<Scored>, v: nat, k: nat)
    requires k < |s| && s[k].score == v
    ensures s[k] in WithScore(s, v)
  {
    if k > 0 {
      WithScoreHas(s[1..], v, k - 1);
    }
  }

  /** `WithScore` keeps two entries of score v in their order. */
  lemma {:induction false} WithScoreKeepsOrder(s: seq<Scored>, v: nat, p: nat, q: nat)
    requires p < q < |s| && s[p].score == v && s[q].score == v
    ensures exists i, j :: 0 <= i < j < |WithScore(s, v)| && WithScore(s, v)[i] == s[p] && WithScore(s, v)[j] == s[q]
  {
    var rest := WithScore(s[1..], v);
    assert WithScore(s, v) == (if s[0].score == v then [s[0]] else []) + rest;
    var shift := if s[0].score == v then 1 else 0;
    if p == 0 {
      WithScoreHas(s[1..], v, q - 1);
      var j :| 0 <= j < |rest| && rest[j] == s[q];
      assert WithScore(s, v)[0] == s[0] && WithScore(s, v)[j + 1] == s[q];
    } else {
      WithScoreKeepsOrder(s[1..], v, p - 1, q - 1);
      var i, j :| 0 <= i < j < |rest| && rest[i] == s[p] && rest[j] == s[q];
      assert WithScore(s, v)[i + shift] == s[p] && WithScore(s, v)[j + shift] == s[q];
    }
  }

  /** What `WithScore` lists in some order, `s` holds in that order too. */
  lemma {:induction false} WithScoreOrderIn(s: seq<Scored>, v: nat, i: nat, j: nat)
    requires i < j < |WithScore(s, v)|
    ensures exists p, q :: 0 <= p < q < |s| && s[p] == WithScore(s, v)[i] && s[q] == WithScore(s, v)[j]
  {
    var rest := WithScore(s[1..], v);
    assert WithScore(s, v) == (if s[0].score == v then [s[0]] else []) + rest;
    if s[0].score == v {
      if i == 0 {
        WithScoreIn(s[1..], v, j - 1);
        var q :| 0 <= q < |s[1..]| && s[1..][q] == rest[j - 1];
        assert s[q + 1] == WithScore(s, v)[j];
      } else {
        WithScoreOrderIn(s[1..], v, i - 1, j - 1);
        var p, q :| 0 <= p < q < |s[1..]| && s[1..][p] == rest[i - 1] && s[1..][q] == rest[j - 1];
        assert s[p + 1] == WithScore(s, v)[i] && s[q + 1] == WithScore(s, v)[j];
      }
    } else {
      WithScoreOrderIn(s[1..], v, i, j);
      var p, q :| 0 <= p < q < |s[1..]| && s[1..][p] == rest[i] && s[1..][q] == rest[j];
      assert s[p + 1] == WithScore(s, v)[i] && s[q + 1] == WithScore(s, v)[j];
    }
  }

  lemma {:induction false} WithScoreIn(s: seq<Scored>, v: nat, i: nat)
    requires i < |WithScore(s, v)|
    ensures exists q :: 0 <= q < |s| && s[q] == WithScore(s, v)[i]
  {
    var rest := WithScore(s[1..], v);
    assert WithScore(s, v) == (if s[0].score == v then [s[0]] else []) + rest;
    if s[0].score == v && i == 0 {
      assert s[0] == WithScore(s, v)[0];
    } else {
      var i' := if s[0].score == v then i - 1 else i;
      WithScoreIn(s[1..], v, i');
      var q :| 0 <= q < |s[1..]| && s[1..][q] == rest[i'];
      assert s[q + 1] == WithScore(s, v)[i];
    }
  }

  /** Two entries of equal score come out of `arsort` in the order they went in. */
  lemma SortDescKeepsTies(s: seq<Scored>, p: nat, q: nat)
    requires p < q < |SortDesc(s)| && SortDesc(s)[p].score == SortDesc(s)[q].score
    ensures exists i, j :: 0 <= i < j < |s| && s[i] == SortDesc(s)[p] && s[j] == SortDesc(s)[q]
  {
    var r, v := SortDesc(s), SortDesc(s)[p].score;
    WithScoreKeepsOrder(r, v, p, q);
    var i, j :| 0 <= i < j < |WithScore(r, v)| && WithScore(r, v)[i] == r[p] && WithScore(r, v)[j] == r[q];
    SortDescStable(s, v);
    WithScoreOrderIn(s, v, i, j);
  }

  /** `arsort` only moves entries: the output holds exactly the input entries. */
  lemma SortDescEntries(s: seq<Scored>)
    ensures forall x :: x in SortDesc(s) <==> x in s
  {
    var r := SortDesc(s);
    PermutationMembers(r, s);
  }

  /** Rearranging entries with distinct ids leaves the ids distinct. */
  lemma DistinctIdsPermutation(r: seq<Scored>, s: seq<Scored>)
    requires multiset(r) == multiset(s) && Distinct(Ids(s))
    ensures Distinct(Ids(r))
  {
    assert Distinct(s) by {
      forall i, j | 0 <= i < j < |s| ensures s[i] != s[j] {
        assert Ids(s)[i] != Ids(s)[j];
      }
    }
    DistinctPermutation(r, s);
    PermutationMembers(r, s);
    forall p, q | 0 <= p < q < |r| ensures Ids(r)[p] != Ids(r)[q] {
      assert r[p] in s && r[q] in s;
      var i :| 0 <= i < |s| && s[i] == r[p];
      var j :| 0 <= j < |s| && s[j] == r[q];
      assert Ids(s)[i] == r[p].id && Ids(s)[j] == r[q].id;
    }
  }

  /** `arsort` of entries with distinct ids yields distinct ids. */
  lemma SortDescDistinctIds(s: seq<Scored>)
    requires Distinct(Ids(s))
    ensures Distinct(Ids(SortDesc(s)))
  {
    var r := SortDesc(s);
    DistinctIdsPermutation(r, s);
  }

  /** How many ids `array_slice($ids, 0, $limit)` keeps: a negative limit drops that many from the end. */
  function SliceLength(n: nat, limit: int): (k: nat)
    ensures k <= n
    ensures limit >= 0 ==> k <= limit && (k < limit ==> k == n)
    ensures limit < 0 ==> (k > 0 ==> n - k == -limit) && (k == 0 ==> n <= -limit)
  {
    if limit >= 0 then (if limit < n then limit else n)
    else if n + limit > 0 then n + limit else 0
  }
}
