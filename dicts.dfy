/** Python's dict and OrderedDict keep their keys in insertion order: storing
    an existing key replaces its value in place, storing a new key appends it.
    A Dict is that: a sequence of key/value pairs. */
module Dicts {
  import opened Wrappers

  type Dict<K, V> = seq<(K, V)>

  function Keys<K, V>(d: Dict<K, V>): (r: seq<K>)
    ensures |r| == |d|
    ensures forall i :: 0 <= i < |d| ==> r[i] == d[i].0
  {
    seq(|d|, i requires 0 <= i < |d| => d[i].0)
  }

  /** The pairs of zip(keys, values), for lists of equal length. */
  function Zip<K, V>(keys: seq<K>, values: seq<V>): (r: Dict<K, V>)
    requires |keys| == |values|
    ensures |r| == |keys|
    ensures forall i :: 0 <= i < |r| ==> r[i] == (keys[i], values[i])
    ensures Keys(r) == keys
  {
    seq(|keys|, i requires 0 <= i < |keys| => (keys[i], values[i]))
  }

  /** d.get(k): the value of the first pair with key k. */
  function Get<K(==, !new), V>(d: Dict<K, V>, k: K): (r: Option<V>)
    ensures r.None? <==> k !in Keys(d)
  {
    if d == [] then None
    else if d[0].0 == k then Some(d[0].1)
    else Get(d[1..], k)
  }

  /** No key occurs twice. */
  predicate DistinctKeys<K(==, !new), V>(d: Dict<K, V>) {
    d == [] || (d[0].0 !in Keys(d[1..]) && DistinctKeys(d[1..]))
  }

  /** d[k] = v */
  function Put<K(==, !new), V>(d: Dict<K, V>, k: K, v: V): (r: Dict<K, V>)
    ensures Keys(r) == if k in Keys(d) then Keys(d) else Keys(d) + [k]
    ensures Get(r, k) == Some(v)
    ensures forall k' :: k' != k ==> Get(r, k') == Get(d, k')
  {
    if d == [] then [(k, v)]
    else
      KeysCons(d[0], d[1..]);
      assert [d[0]] + d[1..] == d;
      if d[0].0 == k then
        assert ([(k, v)] + d[1..])[1..] == d[1..];
        KeysCons((k, v), d[1..]);
        [(k, v)] + d[1..]
      else
        var rest := Put(d[1..], k, v);
        assert ([d[0]] + rest)[1..] == rest;
        KeysCons(d[0], rest);
        AppendAssoc([d[0].0], Keys(d[1..]), [k]);
        [d[0]] + rest
  }

  lemma KeysCons<K, V>(p: (K, V), d: Dict<K, V>)
    ensures Keys([p] + d) == [p.0] + Keys(d)
  {
  }

  /** Storing a key adds that key and loses none. */
  lemma PutKeySet<K(!new), V>(d: Dict<K, V>, k: K, v: V)
    ensures forall k' :: k' in Keys(Put(d, k, v)) <==> k' in Keys(d) || k' == k
  {
  }

  /** OrderedDict(pairs): later pairs overwrite the value of an earlier equal
      key, which keeps its first position. */
  function FromPairs<K(==, !new), V>(pairs: seq<(K, V)>): (r: Dict<K, V>)
  {
    if pairs == [] then []
    else Put(FromPairs(pairs[..|pairs| - 1]), pairs[|pairs| - 1].0, pairs[|pairs| - 1].1)
  }

  lemma FromPairsSnoc<K(!new), V>(pairs: seq<(K, V)>, p: (K, V))
    ensures FromPairs(pairs + [p]) == Put(FromPairs(pairs), p.0, p.1)
  {
    assert (pairs + [p])[..|pairs|] == pairs;
  }

  /** OrderedDict(pairs) has distinct keys, and exactly the keys given. */
  lemma {:induction false} FromPairsKeys<K(!new), V>(pairs: seq<(K, V)>)
    ensures DistinctKeys(FromPairs(pairs))
    ensures forall k :: k in Keys(FromPairs(pairs)) <==> k in Keys(pairs)
  {
    if pairs != [] {
      var init := pairs[..|pairs| - 1];
      var last := pairs[|pairs| - 1];
      assert pairs == init + [last];
      FromPairsKeys(init);
      KeysSnoc(init, last);
      FromPairsSnoc(init, last);
      PutDistinct(FromPairs(init), last.0, last.1);
      PutKeySet(FromPairs(init), last.0, last.1);
    }
  }

  /** Storing into a dict whose keys are distinct keeps them distinct. */
  lemma {:induction false} PutDistinct<K(!new), V>(d: Dict<K, V>, k: K, v: V)
    requires DistinctKeys(d)
    ensures DistinctKeys(Put(d, k, v))
  {
    if d != [] && d[0].0 != k {
      PutDistinct(d[1..], k, v);
      assert Put(d, k, v)[1..] == Put(d[1..], k, v);
    }
  }

  /** The value FromPairs keeps for a key is the last one given for it. */
  lemma {:induction false} FromPairsLastWins<K(!new), V>(pairs: seq<(K, V)>, i: nat)
    requires i < |pairs|
    requires forall j :: i < j < |pairs| ==> pairs[j].0 != pairs[i].0
    ensures Get(FromPairs(pairs), pairs[i].0) == Some(pairs[i].1)
  {
    if i < |pairs| - 1 {
      FromPairsLastWins(pairs[..|pairs| - 1], i);
    }
  }

  /** The pairs' keys at positions below n are pairwise different. */
  predicate KeysDifferBelow<K(==), V>(pairs: seq<(K, V)>, n: nat) {
    forall i, j :: 0 <= i < j < n && j < |pairs| ==> pairs[i].0 != pairs[j].0
  }

  /** Distinct keys in the recursive sense are distinct position by position. */
  lemma {:induction false} DistinctKeysByIndex<K(!new), V>(d: Dict<K, V>)
    requires DistinctKeys(d)
    ensures KeysDifferBelow(d, |d|)
  {
    if d != [] {
      DistinctKeysByIndex(d[1..]);
      forall i, j | 0 <= i < j < |d|
        ensures d[i].0 != d[j].0
      {
        if i == 0 {
          assert Keys(d[1..])[j - 1] == d[j].0;
        } else {
          assert d[1..][i - 1] == d[i] && d[1..][j - 1] == d[j];
        }
      }
    }
  }

  lemma KeysSnoc<K, V>(d: Dict<K, V>, p: (K, V))
    ensures Keys(d + [p]) == Keys(d) + [p.0]
  {
    var a := Keys(d + [p]);
    var b := Keys(d) + [p.0];
    forall i | 0 <= i < |a|
      ensures a[i] == b[i]
    {
      if i < |d| {
        assert (d + [p])[i] == d[i];
      }
    }
  }

  /** Pairs with different keys build a dict that keeps them all, in order. */
  lemma {:induction false} FromPairsDistinct<K(!new), V>(pairs: seq<(K, V)>)
    requires KeysDifferBelow(pairs, |pairs|)
    ensures Keys(FromPairs(pairs)) == Keys(pairs)
  {
    if pairs != [] {
      var init := pairs[..|pairs| - 1];
      var last := pairs[|pairs| - 1];
      assert pairs == init + [last];
      KeysSnoc(init, last);
      assert KeysDifferBelow(init, |init|) by {
        forall i, j | 0 <= i < j < |init|
          ensures init[i].0 != init[j].0
        {
          assert init[i] == pairs[i] && init[j] == pairs[j];
        }
      }
      FromPairsDistinct(init);
      assert last.0 !in Keys(init) by {
        forall i | 0 <= i < |init|
          ensures Keys(init)[i] != last.0
        {
          assert init[i] == pairs[i];
        }
      }
    }
  }

  /** Storing a key moves no pair: the old pairs keep their places and keys. */
  lemma {:induction false} PutKeepsPlaces<K(!new), V>(d: Dict<K, V>, k: K, v: V)
    ensures |d| <= |Put(d, k, v)|
    ensures forall i :: 0 <= i < |d| ==> Put(d, k, v)[i].0 == d[i].0
  {
    if d != [] && d[0].0 != k {
      PutKeepsPlaces(d[1..], k, v);
      var r := Put(d, k, v);
      assert r == [d[0]] + Put(d[1..], k, v);
      forall i | 1 <= i < |d|
        ensures r[i].0 == d[i].0
      {
        assert r[i] == Put(d[1..], k, v)[i - 1] && d[1..][i - 1] == d[i];
      }
    }
  }

  /** Pairs with different keys all keep their places in the dict. */
  lemma DistinctPlaces<K(!new), V>(pairs: seq<(K, V)>)
    requires KeysDifferBelow(pairs, |pairs|)
    ensures |pairs| <= |FromPairs(pairs)|
    ensures forall i :: 0 <= i < |pairs| ==> FromPairs(pairs)[i].0 == pairs[i].0
  {
    FromPairsDistinct(pairs);
    assert forall i :: 0 <= i < |pairs| ==> Keys(FromPairs(pairs))[i] == Keys(pairs)[i];
  }

  /** More pairs never move the keys already there. */
  lemma {:induction false} ExtendKeepsPlaces<K(!new), V>(pairs: seq<(K, V)>, rest: seq<(K, V)>)
    ensures |FromPairs(pairs)| <= |FromPairs(pairs + rest)|
    ensures forall i :: 0 <= i < |FromPairs(pairs)| ==> FromPairs(pairs + rest)[i].0 == FromPairs(pairs)[i].0
    decreases |rest|
  {
    if rest == [] {
      assert pairs + rest == pairs;
    } else {
      var init := rest[..|rest| - 1];
      var last := rest[|rest| - 1];
      SplitLast(rest);
      ExtendKeepsPlaces(pairs, init);
      AppendAssoc(pairs, init, [last]);
      FromPairsSnoc(pairs + init, last);
      PutKeepsPlaces(FromPairs(pairs + init), last.0, last.1);
    }
  }

  /** Pairs with different keys placed first stay first, in their order,
      whatever pairs follow them. */
  lemma FromPairsKeepsPrefix<K(!new), V>(prefix: seq<(K, V)>, rest: seq<(K, V)>)
    requires KeysDifferBelow(prefix, |prefix|)
    ensures |prefix| <= |FromPairs(prefix + rest)|
    ensures forall i :: 0 <= i < |prefix| ==> FromPairs(prefix + rest)[i].0 == prefix[i].0
  {
    DistinctPlaces(prefix);
    ExtendKeepsPlaces(prefix, rest);
  }

  lemma SplitLast<T>(s: seq<T>)
    requires s != []
    ensures s == s[..|s| - 1] + [s[|s| - 1]]
  {
  }

  lemma AppendAssoc<T>(a: seq<T>, b: seq<T>, c: seq<T>)
    ensures a + (b + c) == (a + b) + c
  {
  }

  /** A dict whose first pairs carry the given keys lists those keys first. */
  lemma KeysStartWith<K, V>(d: Dict<K, V>, ks: seq<K>)
    requires |ks| <= |d| && forall i :: 0 <= i < |ks| ==> d[i].0 == ks[i]
    ensures Keys(d)[..|ks|] == ks
  {
  }
}
