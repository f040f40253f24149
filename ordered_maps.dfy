/**
 * PHP arrays with integer keys: maps that remember the order in which their
 * keys were first inserted. `foreach` visits keys in that order, and both the
 * co-occurrence matrix and the score table of the recommender are such arrays.
 */
module OrderedMaps {

  /** No element occurs twice. */
  predicate Distinct<T(==)>(s: seq<T>) {
    forall i, j :: 0 <= i < j < |s| ==> s[i] != s[j]
  }

  /** `keys` lists the keys of `vals` in insertion order. */
  datatype OrderedMap<V> = OrderedMap(keys: seq<int>, vals: map<int, V>)

  ghost predicate Valid<V>(m: OrderedMap<V>) {
    Distinct(m.keys) && forall k :: k in m.vals <==> k in m.keys
  }

  lemma KeysInVals<V>(m: OrderedMap<V>)
    requires Valid(m)
    ensures forall i :: 0 <= i < |m.keys| ==> m.keys[i] in m.vals
  {
    assert forall k :: k in m.vals <==> k in m.keys;
    forall i | 0 <= i < |m.keys| ensures m.keys[i] in m.vals {
      assert m.keys[i] in m.keys;
    }
  }

  /** `[]` */
  function Empty<V>(): (m: OrderedMap<V>)
    ensures Valid(m) && m.keys == [] && m.vals == map[]
  {
    OrderedMap([], map[])
  }

  /** `$a[$k] = $v`: an existing key keeps its place, a new key goes last. */
  function Put<V>(m: OrderedMap<V>, k: int, v: V): (r: OrderedMap<V>)
    requires Valid(m)
    ensures Valid(r)
    ensures r.vals == m.vals[k := v]
    ensures r.keys == if k in m.vals then m.keys else m.keys + [k]
  {
    if k in m.vals then OrderedMap(m.keys, m.vals[k := v])
    else OrderedMap(m.keys + [k], m.vals[k := v])
  }

  /** Putting a new element in front of a sequence without repetitions keeps it so. */
  lemma DistinctCons<T>(x: T, s: seq<T>)
    requires Distinct(s) && x !in s
    ensures Distinct([x] + s)
  {
    var r := [x] + s;
    forall i, j | 0 <= i < j < |r| ensures r[i] != r[j] {
      assert r[j] == s[j - 1];
      if i > 0 {
        assert r[i] == s[i - 1];
      }
    }
  }

  /** An element of a sequence without repetitions occurs in it exactly once. */
  lemma {:induction false} DistinctMultiplicity<T>(t: seq<T>, x: T)
    requires Distinct(t)
    ensures multiset(t)[x] <= 1
  {
    if t != [] {
      var n := |t| - 1;
      assert t == t[..n] + [t[n]];
      assert Distinct(t[..n]);
      DistinctMultiplicity(t[..n], x);
      if t[n] == x {
        assert x !in t[..n];
      }
    }
  }

  /** A rearrangement of a sequence holds the same elements. */
  lemma PermutationMembers<T>(r: seq<T>, s: seq<T>)
    requires multiset(r) == multiset(s)
    ensures forall x :: x in r <==> x in s
  {
    forall x ensures x in r <==> x in s {
      assert x in r <==> x in multiset(r);
      assert x in s <==> x in multiset(s);
    }
  }

  /** A rearrangement of a sequence without repetitions has none either. */
  lemma DistinctPermutation<T>(s: seq<T>, t: seq<T>)
    requires multiset(s) == multiset(t) && Distinct(t)
    ensures Distinct(s)
  {
    forall i, j | 0 <= i < j < |s|
      ensures s[i] != s[j]
    {
      if s[i] == s[j] {
        assert s == s[..i] + [s[i]] + s[i + 1..j] + [s[j]] + s[j + 1..];
        assert multiset(s)[s[i]] >= 2;
        DistinctMultiplicity(t, s[i]);
      }
    }
  }
}
