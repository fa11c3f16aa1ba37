/** Insertion-ordered maps: the semantics of a Ruby Hash. A map is a
    sequence of (key, value) pairs; assigning an existing key replaces its
    value where it stands, assigning a new key appends, and deleting a key
    keeps the order of the others. */
module OrderedMaps {
  import opened Outcomes

  function Keys<K, V>(m: seq<(K, V)>): (ks: seq<K>)
    ensures |ks| == |m|
    ensures forall i :: 0 <= i < |m| ==> ks[i] == m[i].0
  {
    seq(|m|, i requires 0 <= i < |m| => m[i].0)
  }

  function Values<K, V>(m: seq<(K, V)>): (vs: seq<V>)
    ensures |vs| == |m|
    ensures forall i :: 0 <= i < |m| ==> vs[i] == m[i].1
  {
    seq(|m|, i requires 0 <= i < |m| => m[i].1)
  }

  /** Every key occurs once, as in any Ruby Hash. */
  ghost predicate UniqueKeys<K, V>(m: seq<(K, V)>) {
    forall i, j :: 0 <= i < j < |m| ==> m[i].0 != m[j].0
  }

  /** `hash[k]` / `hash.key?(k)`: the value stored under `k`, if any. */
  function Lookup<K(==), V>(m: seq<(K, V)>, k: K): Option<V> {
    if m == [] then None
    else if m[0].0 == k then Some(m[0].1)
    else Lookup(m[1..], k)
  }

  /** A lookup succeeds exactly for the keys of the map, and what it finds
      is a pair of the map. */
  lemma {:induction false} LookupFound<K, V>(m: seq<(K, V)>, k: K)
    ensures Lookup(m, k).Some? <==> k in Keys(m)
    ensures Lookup(m, k).Some? ==> (k, Lookup(m, k).value) in m
  {
    if m != [] {
      LookupFound(m[1..], k);
      assert m == [m[0]] + m[1..];
      KeysCons(m[0], m[1..]);
    }
  }

  /** `hash[k] = v`: replace in place, or append a new pair at the end. */
  function Store<K(==), V>(m: seq<(K, V)>, k: K, v: V): seq<(K, V)> {
    if m == [] then [(k, v)]
    else if m[0].0 == k then [(k, v)] + m[1..]
    else [m[0]] + Store(m[1..], k, v)
  }

  /** `hash.delete(k)`: drop the pair for `k`, keeping the others in order. */
  function Remove<K(==), V>(m: seq<(K, V)>, k: K): (r: seq<(K, V)>)
    ensures k !in Keys(m) ==> r == m
    ensures k in Keys(m) ==> |r| == |m| - 1
  {
    if m == [] then []
    else if m[0].0 == k then m[1..]
    else [m[0]] + Remove(m[1..], k)
  }

  /** The keys of `ks` other than `k`, in order. */
  function Without<K(==)>(ks: seq<K>, k: K): (r: seq<K>)
    ensures k !in r
    ensures forall i :: 0 <= i < |r| ==> r[i] in ks
    ensures forall i :: 0 <= i < |ks| && ks[i] != k ==> ks[i] in r
  {
    if ks == [] then []
    else if ks[0] == k then Without(ks[1..], k)
    else [ks[0]] + Without(ks[1..], k)
  }

  lemma {:induction false} LookupStore<K, V>(m: seq<(K, V)>, k: K, v: V, k': K)
    ensures Lookup(Store(m, k, v), k') == if k' == k then Some(v) else Lookup(m, k')
  {
    if m != [] && m[0].0 != k {
      LookupStore(m[1..], k, v, k');
    }
  }

  /** Storing keeps the keys in order, and adds a new key at the end. */
  lemma {:induction false} StoreKeys<K, V>(m: seq<(K, V)>, k: K, v: V)
    ensures Keys(Store(m, k, v)) == if k in Keys(m) then Keys(m) else Keys(m) + [k]
  {
    if m == [] {
      assert Keys(Store(m, k, v)) == [k];
    } else if m[0].0 == k {
      assert Keys(m)[0] == k;
      assert Keys(Store(m, k, v)) == Keys(m);
    } else {
      StoreKeys(m[1..], k, v);
      assert m == [m[0]] + m[1..];
      KeysCons(m[0], m[1..]);
      KeysCons(m[0], Store(m[1..], k, v));
      assert k in Keys(m) <==> k in Keys(m[1..]);
    }
  }

  lemma {:induction false} StoreUnique<K, V>(m: seq<(K, V)>, k: K, v: V)
    requires UniqueKeys(m)
    ensures UniqueKeys(Store(m, k, v))
  {
    var r := Store(m, k, v);
    StoreKeys(m, k, v);
    forall i, j | 0 <= i < j < |r| ensures r[i].0 != r[j].0 {
      assert Keys(r)[i] == r[i].0 && Keys(r)[j] == r[j].0;
      if j < |m| {
        assert Keys(m)[i] == m[i].0 && Keys(m)[j] == m[j].0;
      } else {
        assert Keys(m)[i] == m[i].0;
      }
    }
  }

  /** Storing the value a key already holds changes nothing. */
  lemma {:induction false} StoreSame<K, V>(m: seq<(K, V)>, k: K, v: V)
    requires Lookup(m, k) == Some(v)
    ensures Store(m, k, v) == m
  {
    if m[0].0 != k {
      StoreSame(m[1..], k, v);
    }
  }

  /** With unique keys, the pair at position i is what a lookup of its key finds. */
  lemma {:induction false} LookupAt<K, V>(m: seq<(K, V)>, i: nat)
    requires UniqueKeys(m) && i < |m|
    ensures Lookup(m, m[i].0) == Some(m[i].1)
  {
    if i > 0 {
      assert m[0].0 != m[i].0;
      TailUnique(m);
      LookupAt(m[1..], i - 1);
    }
  }

  /** An existing key is overwritten at its own position. */
  lemma {:induction false} StoreInPlace<K, V>(m: seq<(K, V)>, i: nat, v: V)
    requires UniqueKeys(m) && i < |m|
    ensures Store(m, m[i].0, v) == m[i := (m[i].0, v)]
  {
    if i > 0 {
      assert m[0].0 != m[i].0;
      TailUnique(m);
      StoreInPlace(m[1..], i - 1, v);
      ConsUpdate(m, i, (m[i].0, v));
    }
  }

  lemma ConsUpdate<T>(m: seq<T>, i: nat, x: T)
    requires 0 < i < |m|
    ensures [m[0]] + m[1..][i - 1 := x] == m[i := x]
  {
  }

  /** A new key lands at the end. */
  lemma {:induction false} StoreAppends<K, V>(m: seq<(K, V)>, k: K, v: V)
    requires k !in Keys(m)
    ensures Store(m, k, v) == m + [(k, v)]
  {
    if m != [] {
      assert Keys(m)[0] == m[0].0;
      assert k !in Keys(m[1..]) by {
        forall j | 0 <= j < |m| - 1 ensures Keys(m[1..])[j] != k {
          assert Keys(m[1..])[j] == Keys(m)[j + 1];
        }
      }
      StoreAppends(m[1..], k, v);
    }
  }

  lemma {:induction false} LookupRemove<K, V>(m: seq<(K, V)>, k: K, k': K)
    requires UniqueKeys(m)
    ensures Lookup(Remove(m, k), k') == if k' == k then None else Lookup(m, k')
  {
    if m != [] {
      assert UniqueKeys(m[1..]) by {
        forall a, b | 0 <= a < b < |m| - 1 ensures m[1..][a].0 != m[1..][b].0 {
          assert m[a + 1].0 != m[b + 1].0;
        }
      }
      if m[0].0 == k {
        if k' == k {
          LookupFound(m[1..], k);
          assert k !in Keys(m[1..]) by {
            forall j | 0 <= j < |m| - 1 ensures Keys(m[1..])[j] != k {
              assert m[j + 1].0 != m[0].0;
            }
          }
        }
      } else {
        LookupRemove(m[1..], k, k');
      }
    }
  }

  /** Deleting a key keeps the remaining keys in their order. */
  lemma {:induction false} RemoveKeys<K, V>(m: seq<(K, V)>, k: K)
    requires UniqueKeys(m)
    ensures Keys(Remove(m, k)) == Without(Keys(m), k)
  {
    if m != [] {
      KeysCons(m[0], m[1..]);
      assert [m[0]] + m[1..] == m;
      TailUnique(m);
      if m[0].0 == k {
        HeadNotInTail(m);
        WithoutAbsent(Keys(m[1..]), k);
      } else {
        RemoveKeys(m[1..], k);
        KeysCons(m[0], Remove(m[1..], k));
      }
    }
  }

  lemma KeysSnoc<K, V>(m: seq<(K, V)>)
    requires m != []
    ensures Keys(m) == Keys(m[..|m| - 1]) + [m[|m| - 1].0]
  {
  }

  lemma KeysCons<K, V>(p: (K, V), m: seq<(K, V)>)
    ensures Keys([p] + m) == [p.0] + Keys(m)
  {
  }

  lemma TailUnique<K, V>(m: seq<(K, V)>)
    requires UniqueKeys(m) && m != []
    ensures UniqueKeys(m[1..])
  {
    forall a, b | 0 <= a < b < |m| - 1 ensures m[1..][a].0 != m[1..][b].0 {
      assert m[a + 1].0 != m[b + 1].0;
    }
  }

  lemma HeadNotInTail<K, V>(m: seq<(K, V)>)
    requires UniqueKeys(m) && m != []
    ensures m[0].0 !in Keys(m[1..])
  {
    forall j | 0 <= j < |m| - 1 ensures Keys(m[1..])[j] != m[0].0 {
      assert m[j + 1].0 != m[0].0;
    }
  }

  lemma {:induction false} WithoutAbsent<K>(ks: seq<K>, k: K)
    requires k !in ks
    ensures Without(ks, k) == ks
  {
    if ks != [] {
      WithoutAbsent(ks[1..], k);
    }
  }

  lemma {:induction false} RemoveUnique<K, V>(m: seq<(K, V)>, k: K)
    requires UniqueKeys(m)
    ensures UniqueKeys(Remove(m, k))
  {
    if m != [] {
      assert UniqueKeys(m[1..]) by {
        forall a, b | 0 <= a < b < |m| - 1 ensures m[1..][a].0 != m[1..][b].0 {
          assert m[a + 1].0 != m[b + 1].0;
        }
      }
      if m[0].0 != k {
        RemoveUnique(m[1..], k);
        var t := Remove(m[1..], k);
        assert m[0].0 !in Keys(m[1..]) by {
          forall j | 0 <= j < |m| - 1 ensures Keys(m[1..])[j] != m[0].0 {
            assert m[j + 1].0 != m[0].0;
          }
        }
        RemoveKeys(m[1..], k);
        assert m[0].0 !in Keys(t);
        forall a, b | 0 <= a < b < |t| + 1 ensures ([m[0]] + t)[a].0 != ([m[0]] + t)[b].0 {
          if a == 0 {
            assert Keys(t)[b - 1] == t[b - 1].0;
          }
        }
      }
    }
  }
}
