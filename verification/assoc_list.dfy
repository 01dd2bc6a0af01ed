/**
 * Insertion-ordered dictionaries, as Python dicts and JSON objects are: a
 * sequence of key/value pairs in which assigning to a missing key appends it
 * at the end and assigning to a present key replaces its value in place.
 */
module AssocList {
  import opened Wrappers

  function Keys<K, V>(s: seq<(K, V)>): (ks: seq<K>)
    ensures |ks| == |s|
    ensures forall i :: 0 <= i < |s| ==> ks[i] == s[i].0
  {
    if s == [] then [] else [s[0].0] + Keys(s[1..])
  }

  /** No key occurs twice: what every Python dict satisfies. */
  predicate DistinctKeys<K(==), V>(s: seq<(K, V)>) {
    forall i, j :: 0 <= i < j < |s| ==> s[i].0 != s[j].0
  }

  /** `d.get(k)`: the value paired with the first occurrence of `k`. */
  function Get<K(==), V>(s: seq<(K, V)>, k: K): Option<V> {
    if s == [] then None
    else if s[0].0 == k then Some(s[0].1)
    else Get(s[1..], k)
  }

  /** A key reads a value exactly when it is one of the keys. */
  lemma {:induction false} GetPresent<K, V>(s: seq<(K, V)>, k: K)
    ensures Get(s, k).Some? <==> k in Keys(s)
  {
    if s != [] {
      assert Keys(s) == [s[0].0] + Keys(s[1..]);
      if s[0].0 != k {
        GetPresent(s[1..], k);
      }
    }
  }

  /** `d[k] = v`. Its effect is stated by the lemmas below, called where needed. */
  function Put<K(==), V>(s: seq<(K, V)>, k: K, v: V): seq<(K, V)> {
    if s == [] then [(k, v)]
    else if s[0].0 == k then [(k, v)] + s[1..]
    else [s[0]] + Put(s[1..], k, v)
  }

  /** After `d[k] = v`, `k` reads `v` and every other key reads what it read before. */
  lemma {:induction false} GetPut<K, V>(s: seq<(K, V)>, k: K, v: V, k': K)
    ensures Get(Put(s, k, v), k') == if k' == k then Some(v) else Get(s, k')
  {
    if s != [] && s[0].0 != k && s[0].0 != k' {
      GetPut(s[1..], k, v, k');
    }
  }

  /** `d[k] = v` keeps the key order, appending `k` when it is new. */
  lemma {:induction false} KeysPut<K, V>(s: seq<(K, V)>, k: K, v: V)
    ensures Keys(Put(s, k, v)) == if k in Keys(s) then Keys(s) else Keys(s) + [k]
  {
    if s != [] && s[0].0 != k {
      KeysPut(s[1..], k, v);
      assert Keys(s) == [s[0].0] + Keys(s[1..]);
    }
  }

  lemma {:induction false} PutKeepsDistinct<K, V>(s: seq<(K, V)>, k: K, v: V)
    requires DistinctKeys(s)
    ensures DistinctKeys(Put(s, k, v))
  {
    var r := Put(s, k, v);
    KeysPut(s, k, v);
    forall i, j | 0 <= i < j < |r|
      ensures r[i].0 != r[j].0
    {
      assert Keys(r)[i] == r[i].0 && Keys(r)[j] == r[j].0;
      if k !in Keys(s) && j == |s| {
        assert Keys(r)[i] == Keys(s)[i];
      } else {
        assert Keys(r)[i] == Keys(s)[i] && Keys(r)[j] == Keys(s)[j];
      }
    }
  }

  /** Writing back the value a key already has changes nothing. */
  lemma {:induction false} PutSame<K, V>(s: seq<(K, V)>, k: K, v: V)
    requires Get(s, k) == Some(v)
    ensures Put(s, k, v) == s
  {
    if s[0].0 != k {
      PutSame(s[1..], k, v);
    }
  }

  /** A second write to the same key overrides the first. */
  lemma {:induction false} PutPut<K, V>(s: seq<(K, V)>, k: K, v1: V, v2: V)
    ensures Put(Put(s, k, v1), k, v2) == Put(s, k, v2)
  {
    if s != [] && s[0].0 != k {
      PutPut(s[1..], k, v1, v2);
    }
  }

  /** The sum of a weight over the values, in stored order. */
  function SumValues<K, V>(s: seq<(K, V)>, w: V -> int): int {
    if s == [] then 0 else w(s[0].1) + SumValues(s[1..], w)
  }

  /** Replacing a value changes the sum by the difference of the weights; adding one adds its weight. */
  lemma {:induction false} SumValuesPut<K, V>(s: seq<(K, V)>, k: K, v: V, w: V -> int)
    ensures Get(s, k).Some? ==> SumValues(Put(s, k, v), w) == SumValues(s, w) - w(Get(s, k).value) + w(v)
    ensures Get(s, k).None? ==> SumValues(Put(s, k, v), w) == SumValues(s, w) + w(v)
  {
    if s != [] && s[0].0 != k {
      SumValuesPut(s[1..], k, v, w);
    }
  }

  /** What a key reads is one of the stored pairs. */
  lemma {:induction false} GetIn<K, V>(s: seq<(K, V)>, k: K)
    requires Get(s, k).Some?
    ensures (k, Get(s, k).value) in s
  {
    if s[0].0 != k {
      GetIn(s[1..], k);
    }
  }

  /** With distinct keys, every stored pair is what its key reads. */
  lemma {:induction false} GetAt<K, V>(s: seq<(K, V)>, i: nat)
    requires DistinctKeys(s) && i < |s|
    ensures Get(s, s[i].0) == Some(s[i].1)
  {
    if i > 0 {
      assert s[0].0 != s[i].0;
      assert DistinctKeys(s[1..]) by {
        forall a, b | 0 <= a < b < |s[1..]|
          ensures s[1..][a].0 != s[1..][b].0
        {
          assert s[1..][a] == s[a + 1] && s[1..][b] == s[b + 1];
        }
      }
      GetAt(s[1..], i - 1);
    }
  }
}
