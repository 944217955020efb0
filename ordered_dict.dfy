/**
 * Python's `dict` (and `OrderedDict`): a finite map that remembers the order in which keys were
 * first inserted. Assigning to an existing key replaces its value in place, keeping its position.
 */
module OrderedDict {
  import opened Base

  /** The entries of a dictionary, in insertion order. */
  type Dict<K, V> = seq<(K, V)>

  function Keys<K, V>(d: Dict<K, V>): (ks: seq<K>)
    ensures |ks| == |d|
    ensures forall i :: 0 <= i < |d| ==> ks[i] == d[i].0
  {
    if d == [] then [] else [d[0].0] + Keys(d[1..])
  }

  /** A well-formed dictionary holds each key once. */
  predicate Valid<K(==), V>(d: Dict<K, V>)
  {
    NoDup(Keys(d))
  }

  /** `d.get(k)`: the value stored under `k`, if any. */
  function Get<K(==), V>(d: Dict<K, V>, k: K): (r: Option<V>)
    ensures r.Some? <==> k in Keys(d)
    ensures r.Some? ==> exists i :: 0 <= i < |d| && d[i] == (k, r.value)
  {
    if d == [] then None
    else if d[0].0 == k then Some(d[0].1)
    else Get(d[1..], k)
  }

  /**
   * `d[k] = v`: an existing key keeps its position and takes the new value; a new key is added
   * last. Every other key keeps its value.
   */
  function Put<K(==, !new), V(!new)>(d: Dict<K, V>, k: K, v: V): (r: Dict<K, V>)
    ensures k in Keys(d) ==> Keys(r) == Keys(d)
    ensures k !in Keys(d) ==> Keys(r) == Keys(d) + [k]
    ensures Get(r, k) == Some(v)
    ensures forall k' :: k' != k ==> Get(r, k') == Get(d, k')
  {
    if d == [] then [(k, v)]
    else if d[0].0 == k then
      var r := [(k, v)] + d[1..];
      assert r[0] == (k, v) && r[1..] == d[1..];
      r
    else
      var rest := Put(d[1..], k, v);
      var r := [d[0]] + rest;
      assert r[0] == d[0] && r[1..] == rest;
      assert Keys(r) == [d[0].0] + Keys(rest);
      r
  }

  /** Assigning keeps a well-formed dictionary well-formed. */
  lemma PutValid<K(!new), V(!new)>(d: Dict<K, V>, k: K, v: V)
    requires Valid(d)
    ensures Valid(Put(d, k, v))
  {
    var ks := Keys(d);
    if k !in ks {
      var rs := Keys(Put(d, k, v));
      assert rs == ks + [k];
      forall i, j | 0 <= i < j < |rs| ensures rs[i] != rs[j] {
        if j < |ks| {
          assert rs[i] == ks[i] && rs[j] == ks[j];
        } else {
          assert rs[i] == ks[i];
        }
      }
    }
  }

  /** Assigning a key twice is assigning it the second value. */
  lemma {:induction false} PutTwice<K(!new), V(!new)>(d: Dict<K, V>, k: K, v: V, w: V)
    ensures Put(Put(d, k, v), k, w) == Put(d, k, w)
  {
    if d != [] && d[0].0 != k {
      PutTwice(d[1..], k, v, w);
      assert Put(d, k, v) == [d[0]] + Put(d[1..], k, v);
      assert Put(d, k, v)[1..] == Put(d[1..], k, v);
    }
  }

  /** The dictionary `{k: v for k, v in pairs}`: later pairs overwrite earlier ones with the same key. */
  function FromPairs<K(==, !new), V(!new)>(pairs: seq<(K, V)>): (d: Dict<K, V>)
    ensures Valid(d)
  {
    if pairs == [] then []
    else
      var init := FromPairs(pairs[..|pairs| - 1]);
      PutValid(init, pairs[|pairs| - 1].0, pairs[|pairs| - 1].1);
      Put(init, pairs[|pairs| - 1].0, pairs[|pairs| - 1].1)
  }

  /** The position of a key present in the dictionary: the first entry holding it. */
  function IndexOfKey<K(==), V>(d: Dict<K, V>, k: K): (i: nat)
    requires k in Keys(d)
    ensures i < |d| && d[i].0 == k && forall j :: 0 <= j < i ==> d[j].0 != k
  {
    if d[0].0 == k then 0 else 1 + IndexOfKey(d[1..], k)
  }

  /** A key is found at the first entry that holds it. */
  lemma {:induction false} GetAt<K, V>(d: Dict<K, V>, k: K, i: nat)
    requires i < |d| && d[i].0 == k && forall j :: 0 <= j < i ==> d[j].0 != k
    ensures Get(d, k) == Some(d[i].1)
  {
    if i > 0 {
      GetAt(d[1..], k, i - 1);
    }
  }

  /** Assigning a key adds no entry other than the assigned one. */
  lemma {:induction false} PutEntries<K(!new), V(!new)>(d: Dict<K, V>, k: K, v: V)
    ensures forall e :: e in Put(d, k, v) ==> e in d || e == (k, v)
  {
    if d != [] && d[0].0 != k {
      PutEntries(d[1..], k, v);
      assert Put(d, k, v) == [d[0]] + Put(d[1..], k, v);
    }
  }

  /** Every entry of a dictionary built from pairs is one of the pairs. */
  lemma {:induction false} FromPairsEntries<K(!new), V(!new)>(pairs: seq<(K, V)>)
    ensures forall e :: e in FromPairs(pairs) ==> e in pairs
  {
    if pairs != [] {
      var init := pairs[..|pairs| - 1];
      FromPairsEntries(init);
      PutEntries(FromPairs(init), pairs[|pairs| - 1].0, pairs[|pairs| - 1].1);
    }
  }

  /** The value of the last pair whose key is `k`. */
  function LastValue<K(==), V>(pairs: seq<(K, V)>, k: K): Option<V>
  {
    if pairs == [] then None
    else if pairs[|pairs| - 1].0 == k then Some(pairs[|pairs| - 1].1)
    else LastValue(pairs[..|pairs| - 1], k)
  }

  /** The last pair with a key determines its value. */
  lemma {:induction false} LastValueAt<K, V>(pairs: seq<(K, V)>, i: nat)
    requires i < |pairs| && forall m :: i < m < |pairs| ==> pairs[m].0 != pairs[i].0
    ensures LastValue(pairs, pairs[i].0) == Some(pairs[i].1)
  {
    if i < |pairs| - 1 {
      LastValueAt(pairs[..|pairs| - 1], i);
    }
  }

  /** The first appearance order of the keys of `pairs`, without repetitions. */
  function FirstAppearance<K(==)>(ks: seq<K>): seq<K>
  {
    if ks == [] then []
    else
      var prev := FirstAppearance(ks[..|ks| - 1]);
      if ks[|ks| - 1] in ks[..|ks| - 1] then prev else prev + [ks[|ks| - 1]]
  }

  /**
   * Building a dictionary from pairs keeps the keys in the order they first appear, and stores
   * under each key the value of its last pair.
   */
  lemma {:induction false} FromPairsContents<K(!new), V(!new)>(pairs: seq<(K, V)>)
    ensures Keys(FromPairs(pairs)) == FirstAppearance(Keys(pairs))
    ensures forall k :: Get(FromPairs(pairs), k) == LastValue(pairs, k)
  {
    if pairs != [] {
      var init := pairs[..|pairs| - 1];
      FromPairsContents(init);
      assert Keys(pairs)[..|pairs| - 1] == Keys(init);
      FirstAppearanceMembers(Keys(init));
    }
  }

  lemma {:induction false} FirstAppearanceMembers<K>(ks: seq<K>)
    ensures forall k :: k in FirstAppearance(ks) <==> k in ks
  {
    if ks != [] {
      FirstAppearanceMembers(ks[..|ks| - 1]);
      assert ks == ks[..|ks| - 1] + [ks[|ks| - 1]];
    }
  }

  /** The dictionary comprehension `{k: v for k, v in d.items() if keep(k)}`. */
  function Restrict<K(==, !new), V(!new)>(d: Dict<K, V>, keep: K -> bool): (r: Dict<K, V>)
    ensures Keys(r) == Filter(Keys(d), keep)
    ensures forall k :: Get(r, k) == if keep(k) then Get(d, k) else None
  {
    if d == [] then []
    else
      var rest := Restrict(d[1..], keep);
      var ks := Keys(d);
      assert ks[0] == d[0].0 && ks[1..] == Keys(d[1..]);
      assert Filter(ks, keep) == (if keep(d[0].0) then [d[0].0] else []) + Filter(Keys(d[1..]), keep);
      if keep(d[0].0) then
        assert Keys([d[0]] + rest) == [d[0].0] + Keys(rest);
        [d[0]] + rest
      else
        rest
  }

  lemma ValidTail<K, V>(d: Dict<K, V>)
    requires Valid(d) && d != []
    ensures Valid(d[1..]) && d[0].0 !in Keys(d[1..])
  {
    var ks, rs := Keys(d), Keys(d[1..]);
    forall i | 0 <= i < |rs| ensures rs[i] == ks[i + 1] { }
  }

  /** Keeping the entries whose (key, value) satisfies `p` keeps a well-formed dictionary. */
  lemma {:induction false} FilterValid<K(!new), V(!new)>(d: Dict<K, V>, p: ((K, V)) -> bool)
    requires Valid(d)
    ensures Valid(Filter(d, p))
    ensures forall k :: k in Keys(Filter(d, p)) ==> k in Keys(d)
  {
    if d != [] {
      ValidTail(d);
      FilterValid(d[1..], p);
      var fr := Filter(d[1..], p);
      assert Filter(d, p) == (if p(d[0]) then [d[0]] else []) + fr;
      assert Keys([d[0]] + fr) == [d[0].0] + Keys(fr);
    }
  }

  /**
   * In a well-formed dictionary, the keys surviving a filter on entries are the dictionary's keys,
   * in order, whose stored entry passes.
   */
  lemma {:induction false} FilterKeysOrder<K(!new), V(!new)>(d: Dict<K, V>, p: ((K, V)) -> bool, q: K -> bool)
    requires Valid(d)
    requires forall k :: k in Keys(d) ==> (q(k) <==> Get(d, k).Some? && p((k, Get(d, k).value)))
    ensures Keys(Filter(d, p)) == Filter(Keys(d), q)
  {
    if d != [] {
      ValidTail(d);
      var rest := d[1..];
      forall k | k in Keys(rest) ensures (q(k) <==> Get(rest, k).Some? && p((k, Get(rest, k).value))) {
        assert k != d[0].0;
      }
      FilterKeysOrder(rest, p, q);
      var fr := Filter(rest, p);
      assert Filter(d, p) == (if p(d[0]) then [d[0]] else []) + fr;
      assert Keys([d[0]] + fr) == [d[0].0] + Keys(fr);
      assert Keys(d) == [d[0].0] + Keys(rest);
      assert q(d[0].0) == p(d[0]);
    }
  }

  /** In a well-formed dictionary, a key survives the filter exactly when its stored entry passes. */
  lemma {:induction false} FilterKeys<K(!new), V(!new)>(d: Dict<K, V>, p: ((K, V)) -> bool)
    requires Valid(d)
    ensures forall k :: k in Keys(Filter(d, p)) <==> Get(d, k).Some? && p((k, Get(d, k).value))
  {
    if d != [] {
      ValidTail(d);
      FilterKeys(d[1..], p);
      FilterValid(d[1..], p);
      var fr := Filter(d[1..], p);
      assert Filter(d, p) == (if p(d[0]) then [d[0]] else []) + fr;
      assert Keys([d[0]] + fr) == [d[0].0] + Keys(fr);
    }
  }
}
