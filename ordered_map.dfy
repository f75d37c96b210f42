/**
  A JavaScript `Map`, or a plain object whose keys are not array indices: a list of
  entries in insertion order. `set` on a present key overwrites the value where the
  entry already stands, `set` on a new key appends, `delete` drops the entry, and
  `Array.from(m.values())` / `Object.keys(o)` list entries in that order.
*/
module OrderedMap {
  import opened Wrappers

  type Entries<K, V> = seq<(K, V)>

  predicate KeysDistinct<K(==), V>(m: Entries<K, V>) {
    forall i, j :: 0 <= i < j < |m| ==> m[i].0 != m[j].0
  }

  predicate HasKey<K(==), V>(m: Entries<K, V>, k: K) {
    k in Keys(m)
  }

  function Keys<K, V>(m: Entries<K, V>): (r: seq<K>)
    ensures |r| == |m| && forall i :: 0 <= i < |m| ==> r[i] == m[i].0
  {
    seq(|m|, i requires 0 <= i < |m| => m[i].0)
  }

  function Values<K, V>(m: Entries<K, V>): (r: seq<V>)
    ensures |r| == |m| && forall i :: 0 <= i < |m| ==> r[i] == m[i].1
  {
    seq(|m|, i requires 0 <= i < |m| => m[i].1)
  }

  lemma KeysTail<K, V>(m: Entries<K, V>)
    requires m != []
    ensures Keys(m) == [m[0].0] + Keys(m[1..])
  {
  }

  /** Appending an entry appends its key. */
  lemma KeysSnoc<K, V>(m: Entries<K, V>, e: (K, V))
    ensures Keys(m + [e]) == Keys(m) + [e.0]
  {
    assert Keys(m + [e])[|m|] == e.0;
  }

  /** `m.get(k)`: the value of the first entry with key `k`. */
  function Get<K(==), V>(m: Entries<K, V>, k: K): (r: Option<V>)
    ensures r.None? <==> !HasKey(m, k)
    ensures r.Some? ==> (k, r.value) in m
  {
    if m == [] then None
    else
      KeysTail(m);
      if m[0].0 == k then Some(m[0].1) else Get(m[1..], k)
  }

  /** `m.set(k, v)`: overwrite in place when `k` is present, append otherwise. */
  function Set<K(==,!new), V>(m: Entries<K, V>, k: K, v: V): (r: Entries<K, V>)
    ensures Get(r, k) == Some(v)
    ensures forall k' :: k' != k ==> Get(r, k') == Get(m, k')
  {
    if m == [] then [(k, v)]
    else if m[0].0 == k then [(k, v)] + m[1..]
    else
      var t := Set(m[1..], k, v);
      assert ([m[0]] + t)[1..] == t;
      [m[0]] + t
  }

  /** `set` adds no entry other than the one it writes. */
  lemma {:induction false} SetEntries<K(!new), V>(m: Entries<K, V>, k: K, v: V)
    ensures forall e :: e in Set(m, k, v) ==> e in m || e == (k, v)
  {
    if m != [] && m[0].0 != k {
      SetEntries(m[1..], k, v);
      assert Set(m, k, v) == [m[0]] + Set(m[1..], k, v);
    }
  }

  /** A present key has an entry. */
  lemma HasKeyEntry<K, V>(m: Entries<K, V>, k: K)
    requires HasKey(m, k)
    ensures exists v :: (k, v) in m
  {
    var i :| 0 <= i < |m| && Keys(m)[i] == k;
    assert m[i] in m;
  }

  /** The value of a stored entry is among the values. */
  lemma EntryValue<K, V>(m: Entries<K, V>, k: K, v: V)
    requires (k, v) in m
    ensures v in Values(m)
  {
    var i :| 0 <= i < |m| && m[i] == (k, v);
    assert Values(m)[i] == v;
  }

  /** With distinct keys, `get` finds the one entry stored under a key. */
  lemma GetEntry<K, V>(m: Entries<K, V>, k: K, v: V)
    requires KeysDistinct(m) && (k, v) in m
    ensures Get(m, k) == Some(v)
  {
    var i :| 0 <= i < |m| && m[i] == (k, v);
    assert Keys(m)[i] == k;
    var w := Get(m, k).value;
    var j :| 0 <= j < |m| && m[j] == (k, w);
  }

  /** Overwriting a present key keeps every key where it stands. */
  lemma {:induction false} SetPresentKeepsKeys<K(!new), V>(m: Entries<K, V>, k: K, v: V)
    requires HasKey(m, k)
    ensures Keys(Set(m, k, v)) == Keys(m)
  {
    KeysTail(m);
    if m[0].0 != k {
      SetPresentKeepsKeys(m[1..], k, v);
      KeysTail(Set(m, k, v));
    } else {
      KeysTail(Set(m, k, v));
    }
  }

  /** Setting a new key appends one entry at the end. */
  lemma {:induction false} SetAbsentAppends<K(!new), V>(m: Entries<K, V>, k: K, v: V)
    requires !HasKey(m, k)
    ensures Set(m, k, v) == m + [(k, v)]
  {
    if m != [] {
      assert m[0].0 != k && !HasKey(m[1..], k) by { KeysTail(m); }
      SetAbsentAppends(m[1..], k, v);
      SetAppendsCons(m, k, v);
    }
  }

  /** One step of the induction above: appending below a first entry with another key. */
  lemma SetAppendsCons<K(!new), V>(m: Entries<K, V>, k: K, v: V)
    requires m != [] && m[0].0 != k
    requires Set(m[1..], k, v) == m[1..] + [(k, v)]
    ensures Set(m, k, v) == m + [(k, v)]
  {
    SetCons(m, k, v);
    ConsAppend(m, (k, v));
  }

  lemma ConsAppend<T>(a: seq<T>, x: T)
    requires a != []
    ensures a + [x] == [a[0]] + (a[1..] + [x])
  {
    assert a == [a[0]] + a[1..];
  }

  /** Below a first entry with another key, `set` works on the rest. */
  lemma SetCons<K(!new), V>(m: Entries<K, V>, k: K, v: V)
    requires m != [] && m[0].0 != k
    ensures Set(m, k, v) == [m[0]] + Set(m[1..], k, v)
  {
  }

  /** `set` never introduces a second entry for a key. */
  lemma SetKeysDistinct<K(!new), V>(m: Entries<K, V>, k: K, v: V)
    requires KeysDistinct(m)
    ensures KeysDistinct(Set(m, k, v))
  {
    var r := Set(m, k, v);
    if HasKey(m, k) {
      SetPresentKeepsKeys(m, k, v);
      forall i, j | 0 <= i < j < |r| ensures r[i].0 != r[j].0 {
        assert r[i].0 == Keys(r)[i] == Keys(m)[i];
        assert r[j].0 == Keys(r)[j] == Keys(m)[j];
      }
    } else {
      SetAbsentAppends(m, k, v);
      forall i, j | 0 <= i < j < |r| ensures r[i].0 != r[j].0 {
        if j == |m| {
          assert m[i].0 == Keys(m)[i];
        }
      }
    }
  }

  /** Writing the value a key already has changes nothing. */
  lemma {:induction false} SetSame<K(!new), V>(m: Entries<K, V>, k: K, v: V)
    requires Get(m, k) == Some(v)
    ensures Set(m, k, v) == m
  {
    if m[0].0 != k {
      SetSame(m[1..], k, v);
    }
  }

  /** Of two writes to the same key only the second one counts. */
  lemma {:induction false} SetTwice<K(!new), V>(m: Entries<K, V>, k: K, v: V, w: V)
    ensures Set(Set(m, k, v), k, w) == Set(m, k, w)
  {
    if m != [] && m[0].0 != k {
      SetTwice(m[1..], k, v, w);
      assert Set(m, k, v) == [m[0]] + Set(m[1..], k, v);
      assert Set(m, k, v)[1..] == Set(m[1..], k, v);
    }
  }

  /** Each key set to its value in turn, starting from an empty map. */
  function SetAll<K(==,!new), V>(keys: seq<K>, vals: seq<V>): (r: Entries<K, V>)
    requires |keys| == |vals|
    ensures forall e :: e in r ==> exists i :: 0 <= i < |keys| && e == (keys[i], vals[i])
  {
    if keys == [] then []
    else
      var n := |keys| - 1;
      var m := SetAll(keys[..n], vals[..n]);
      SetEntries(m, keys[n], vals[n]);
      assert forall i :: 0 <= i < n ==> keys[..n][i] == keys[i] && vals[..n][i] == vals[i];
      Set(m, keys[n], vals[n])
  }

  /** Folding one more key into `SetAll` is one more `set`. */
  lemma SetAllPrefix<K(!new), V>(keys: seq<K>, vals: seq<V>, i: nat)
    requires |keys| == |vals| && i < |keys|
    ensures SetAll(keys[..i + 1], vals[..i + 1]) == Set(SetAll(keys[..i], vals[..i]), keys[i], vals[i])
  {
    assert keys[..i + 1][..i] == keys[..i];
    assert vals[..i + 1][..i] == vals[..i];
  }

  /** The keys paired with their values, position by position. */
  function Zip<K, V>(keys: seq<K>, vals: seq<V>): (r: Entries<K, V>)
    requires |keys| == |vals|
    ensures |r| == |keys| && forall i :: 0 <= i < |keys| ==> r[i] == (keys[i], vals[i])
  {
    seq(|keys|, i requires 0 <= i < |keys| => (keys[i], vals[i]))
  }

  lemma ZipSnoc<K, V>(keys: seq<K>, vals: seq<V>)
    requires |keys| == |vals| > 0
    ensures Zip(keys, vals) == Zip(keys[..|keys| - 1], vals[..|keys| - 1]) + [(keys[|keys| - 1], vals[|keys| - 1])]
  {
    var n := |keys| - 1;
    var r := Zip(keys[..n], vals[..n]) + [(keys[n], vals[n])];
    forall i | 0 <= i < |keys| ensures r[i] == Zip(keys, vals)[i] {
      if i < n { assert r[i] == Zip(keys[..n], vals[..n])[i]; }
    }
  }

  /** With distinct keys, setting them in turn lists each key once, in order, with its value. */
  lemma {:induction false} SetAllDistinct<K(!new), V>(keys: seq<K>, vals: seq<V>)
    requires |keys| == |vals|
    requires forall i, j :: 0 <= i < j < |keys| ==> keys[i] != keys[j]
    ensures SetAll(keys, vals) == Zip(keys, vals)
    decreases |keys|
  {
    if keys != [] {
      var n := |keys| - 1;
      var pre, pv := keys[..n], vals[..n];
      SetAllDistinct(pre, pv);
      var m := Zip(pre, pv);
      assert !HasKey(m, keys[n]) by {
        forall i | 0 <= i < |m| ensures m[i].0 != keys[n] {
          assert m[i].0 == keys[i];
        }
      }
      SetAbsentAppends(m, keys[n], vals[n]);
      ZipSnoc(keys, vals);
    }
  }

  /** `m.delete(k)`: drop the entry with key `k`; a missing key changes nothing. */
  function Delete<K(==,!new), V>(m: Entries<K, V>, k: K): (r: Entries<K, V>)
    ensures !HasKey(r, k)
    ensures forall k' :: k' != k ==> Get(r, k') == Get(m, k')
    ensures !HasKey(m, k) ==> r == m
    ensures |r| <= |m|
    ensures forall e :: e in r ==> e in m
  {
    if m == [] then []
    else if m[0].0 == k then Delete(m[1..], k)
    else [m[0]] + Delete(m[1..], k)
  }

  /** Distinct keys split into a head key the tail does not repeat and a distinct tail. */
  lemma DistinctCons<K, V>(m: Entries<K, V>)
    requires m != []
    ensures KeysDistinct(m) <==> !HasKey(m[1..], m[0].0) && KeysDistinct(m[1..])
  {
    KeysTail(m);
    if !HasKey(m[1..], m[0].0) && KeysDistinct(m[1..]) {
      forall i, j | 0 <= i < j < |m| ensures m[i].0 != m[j].0 {
        if i == 0 {
          assert m[j].0 == Keys(m[1..])[j - 1];
        } else {
          assert m[i] == m[1..][i - 1] && m[j] == m[1..][j - 1];
        }
      }
    }
    if KeysDistinct(m) {
      forall i, j | 0 <= i < j < |m[1..]| ensures m[1..][i].0 != m[1..][j].0 {
        assert m[1..][i] == m[i + 1] && m[1..][j] == m[j + 1];
      }
    }
  }

  /** `delete` keeps the remaining keys distinct. */
  lemma {:induction false} DeleteKeysDistinct<K(!new), V>(m: Entries<K, V>, k: K)
    requires KeysDistinct(m)
    ensures KeysDistinct(Delete(m, k))
  {
    if m != [] {
      DistinctCons(m);
      DeleteKeysDistinct(m[1..], k);
      if m[0].0 != k {
        var r := Delete(m, k);
        assert r[1..] == Delete(m[1..], k);
        assert Get(r[1..], m[0].0) == Get(m[1..], m[0].0);
        DistinctCons(r);
      }
    }
  }

  /** Deleting a key a second time changes nothing: `delete` is idempotent. */
  lemma DeleteIdempotent<K(!new), V>(m: Entries<K, V>, k: K)
    ensures Delete(Delete(m, k), k) == Delete(m, k)
  {
  }
}
