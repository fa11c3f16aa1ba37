/** What the tree helpers promise: a stored value can be fetched back and
    leaves its siblings alone, merging a tree into itself changes nothing,
    deleting returns what was stored, and normalised hashes are keyed by
    Symbols and stay as they are when normalised again. */
module TreeLemmas {
  import opened Outcomes
  import opened OrderedMaps
  import opened Values
  import opened ValueTree
  import opened Text

  // ---------------------------------------------------------------------
  // Facts about one level

  lemma GetChild(m: seq<(Value, Value)>, key: Value)
    requires Get(m, key) != Nil
    ensures (key, Get(m, key)) in m
  {
    LookupFound(m, key);
  }

  lemma WellFormedChild(m: seq<(Value, Value)>, key: Value)
    requires WellFormed(Hash(m))
    ensures WellFormed(Get(m, key))
  {
    if Get(m, key) != Nil {
      GetChild(m, key);
      var i :| 0 <= i < |m| && m[i] == (key, Get(m, key));
      assert WellFormed(m[i].1);
    }
  }

  lemma StringKeyedChild(m: seq<(Value, Value)>, key: Value)
    requires StringKeyed(Hash(m))
    ensures StringKeyed(Get(m, key))
  {
    if Get(m, key) != Nil {
      GetChild(m, key);
      var i :| 0 <= i < |m| && m[i] == (key, Get(m, key));
      assert StringKeyed(m[i].1);
    }
  }

  lemma NoSymbolKey(m: seq<(Value, Value)>, k: string)
    requires StringKeyed(Hash(m))
    ensures Get(m, Sym(k)) == Nil
  {
    LookupFound(m, Sym(k));
    forall i | 0 <= i < |m| ensures Keys(m)[i] != Sym(k) {
      assert m[i].0.Str?;
    }
  }

  /** Storing a well-formed value keeps a hash well formed. */
  lemma StoreWellFormed(m: seq<(Value, Value)>, k: Value, x: Value)
    requires WellFormed(Hash(m)) && WellFormed(x)
    ensures WellFormed(Hash(Store(m, k, x)))
  {
    StoreUnique(m, k, x);
    var r := Store(m, k, x);
    forall i | 0 <= i < |r| ensures WellFormed(r[i].1) {
      LookupAt(r, i);
      LookupStore(m, k, x, r[i].0);
      if r[i].0 != k {
        WellFormedChild(m, r[i].0);
        assert Get(m, r[i].0) == r[i].1;
      }
    }
  }

  /** Removing a key keeps a hash well formed. */
  lemma RemoveWellFormed(m: seq<(Value, Value)>, k: Value)
    requires WellFormed(Hash(m))
    ensures WellFormed(Hash(Remove(m, k)))
  {
    RemoveUnique(m, k);
    var r := Remove(m, k);
    forall i | 0 <= i < |r| ensures WellFormed(r[i].1) {
      LookupAt(r, i);
      LookupRemove(m, k, r[i].0);
      WellFormedChild(m, r[i].0);
      assert Get(m, r[i].0) == r[i].1;
    }
  }

  /** Storing a Symbol key and a Symbol-keyed, well-formed value keeps a
      hash Symbol-keyed and well formed. */
  lemma StoreSymbolKeyed(m: seq<(Value, Value)>, k: Value, x: Value)
    requires SymbolKeyed(Hash(m)) && WellFormed(Hash(m))
    requires k.Sym? && SymbolKeyed(x) && WellFormed(x)
    ensures SymbolKeyed(Hash(Store(m, k, x))) && WellFormed(Hash(Store(m, k, x)))
  {
    StoreWellFormed(m, k, x);
    var r := Store(m, k, x);
    forall i | 0 <= i < |r| ensures r[i].0.Sym? && SymbolKeyed(r[i].1) {
      LookupAt(r, i);
      LookupStore(m, k, x, r[i].0);
      if r[i].0 != k {
        LookupFound(m, r[i].0);
        var j :| 0 <= j < |m| && m[j] == (r[i].0, r[i].1);
        assert m[j].0.Sym? && SymbolKeyed(m[j].1);
      }
    }
  }

  // ---------------------------------------------------------------------
  // deep_fetch after deep_set

  lemma {:induction false} DescendableEmpty(keys: seq<string>)
    ensures Descendable([], keys)
  {
    if |keys| > 1 {
      DescendableEmpty(keys[1..]);
    }
  }

  /** Where `deep_fetch` finds nothing, `deep_set` can descend: every level
      on the way is missing, nil or a Hash under the String key. */
  lemma {:induction false} NilFetchDescendable(m: seq<(Value, Value)>, keys: seq<string>)
    requires DeepFetch(m, keys) == Ok(Nil)
    ensures Descendable(m, keys)
    decreases keys
  {
    if |keys| > 1 {
      var c := Get(m, Str(keys[0]));
      if Lookup(m, Str(keys[0])).Some? && c.Hash? {
        assert IndifferentGet(m, keys[0]) == c;
        NilFetchDescendable(c.entries, keys[1..]);
      } else {
        assert c.Nil? by {
          if Lookup(m, Str(keys[0])).Some? {
            assert IndifferentGet(m, keys[0]) == c;
          }
        }
        DescendableEmpty(keys[1..]);
      }
    }
  }

  /** After storing `v` under a non-empty path, fetching that path gives `v`. */
  lemma {:induction false} SetThenFetch(m: seq<(Value, Value)>, keys: seq<string>, v: Value)
    requires keys != [] && Descendable(m, keys)
    ensures DeepFetch(DeepSet(m, keys, v), keys) == Ok(v)
    decreases keys
  {
    var k := keys[0];
    if |keys| == 1 {
      LookupStore(m, Str(k), v, Str(k));
      assert IndifferentGet(Store(m, Str(k), v), k) == v;
    } else {
      var inner := Inner(Get(m, Str(k)));
      var child := Hash(DeepSet(inner, keys[1..], v));
      var r := Store(m, Str(k), child);
      assert DeepSet(m, keys, v) == r;
      LookupStore(m, Str(k), child, Str(k));
      assert IndifferentGet(r, k) == child;
      SetThenFetch(inner, keys[1..], v);
      assert DeepFetch(r, keys) == DeepFetch(child.entries, keys[1..]);
    }
  }

  /** Two paths that part at some segment after a common prefix. */
  predicate Diverge(a: seq<string>, b: seq<string>)
    decreases a
  {
    a != [] && b != [] && (a[0] != b[0] || Diverge(a[1..], b[1..]))
  }

  /** Fetching a path depends only on what its first segment finds. */
  lemma SameHeadSameFetch(m1: seq<(Value, Value)>, m2: seq<(Value, Value)>, keys: seq<string>)
    requires keys != [] && IndifferentGet(m1, keys[0]) == IndifferentGet(m2, keys[0])
    ensures DeepFetch(m1, keys) == DeepFetch(m2, keys)
  {
  }

  /** Fetching below a stored zero-argument lambda, as in
      `set(:foo, value: -> { 2 })` followed by `fetch(:foo, :bar)`: the
      lambda is called with `:bar` and refuses it, while a block of the
      same arity ignores the argument and then lacks `fetch`. */
  lemma FetchBelowProc(result: Value)
    ensures DeepFetch([(Str("foo"), Proc(true, 0, result))], ["foo", "bar"])
      == Err(ArgumentError("wrong number of arguments (given 1, expected 0)"))
    ensures DeepFetch([(Str("foo"), Proc(false, 0, result))], ["foo", "bar"])
      == Err(NoMethodError("fetch"))
    ensures DeepFetch([(Str("foo"), Proc(true, 1, result))], ["foo", "bar"])
      == Err(NoMethodError("fetch"))
  {
  }

  /** Storing a value leaves every path that parts from it as it was, in a
      tree keyed by Strings. (In a tree with a Symbol-keyed level, the
      String-keyed hash `deep_set` creates beside it shadows that level.) */
  lemma {:induction false} SetKeepsOthers(m: seq<(Value, Value)>, keys: seq<string>, v: Value, other: seq<string>)
    requires Descendable(m, keys) && StringKeyed(Hash(m)) && Diverge(keys, other)
    ensures DeepFetch(DeepSet(m, keys, v), other) == DeepFetch(m, other)
    decreases keys
  {
    var k := keys[0];
    var c := Get(m, Str(k));
    var inner := Inner(c);
    var child := if |keys| == 1 then v else Hash(DeepSet(inner, keys[1..], v));
    var r := Store(m, Str(k), child);
    assert DeepSet(m, keys, v) == r;
    if other[0] != k {
      LookupStore(m, Str(k), child, Str(other[0]));
      LookupStore(m, Str(k), child, Sym(other[0]));
      assert IndifferentGet(r, other[0]) == IndifferentGet(m, other[0]);
      SameHeadSameFetch(r, m, other);
    } else {
      assert Diverge(keys[1..], other[1..]);
      LookupStore(m, Str(k), child, Str(k));
      assert IndifferentGet(r, k) == child;
      NoSymbolKey(m, k);
      assert IndifferentGet(m, k) == c;
      assert DeepFetch(r, other) == DeepFetch(child.entries, other[1..]);
      if c.Hash? {
        StringKeyedChild(m, Str(k));
        SetKeepsOthers(inner, keys[1..], v, other[1..]);
        assert DeepFetch(m, other) == DeepFetch(inner, other[1..]);
      } else {
        DescendableEmpty(keys[1..]);
        SetKeepsOthers([], keys[1..], v, other[1..]);
        assert DeepFetch([], other[1..]) == Ok(Nil);
        assert DeepFetch(m, other) == Ok(Nil);
      }
    }
  }

  /** Storing keeps every hash's keys unique. */
  lemma {:induction false} SetKeepsWellFormed(m: seq<(Value, Value)>, keys: seq<string>, v: Value)
    requires Descendable(m, keys) && WellFormed(Hash(m)) && WellFormed(v)
    ensures WellFormed(Hash(DeepSet(m, keys, v)))
    decreases keys
  {
    if keys == [] {
      StoreWellFormed(m, Nil, v);
    } else if |keys| == 1 {
      StoreWellFormed(m, Str(keys[0]), v);
    } else {
      var c := Get(m, Str(keys[0]));
      WellFormedChild(m, Str(keys[0]));
      SetKeepsWellFormed(Inner(c), keys[1..], v);
      StoreWellFormed(m, Str(keys[0]), Hash(DeepSet(Inner(c), keys[1..], v)));
    }
  }

  // ---------------------------------------------------------------------
  // deep_merge

  lemma {:induction false} LookupAppendOther(m: seq<(Value, Value)>, p: (Value, Value), k: Value)
    requires k != p.0
    ensures Lookup(m + [p], k) == Lookup(m, k)
  {
    if m != [] {
      assert (m + [p])[1..] == m[1..] + [p];
      LookupAppendOther(m[1..], p, k);
    }
  }

  lemma LastKeyFresh(b: seq<(Value, Value)>, n: nat)
    requires UniqueKeys(b) && 0 < n <= |b|
    ensures b[n - 1].0 !in Keys(b[..n - 1])
    ensures Lookup(b[..n], b[n - 1].0) == Some(b[n - 1].1)
  {
    var pre := b[..n - 1];
    forall j | 0 <= j < |pre| ensures Keys(pre)[j] != b[n - 1].0 {
      assert pre[j] == b[j];
    }
    assert UniqueKeys(b[..n]) by {
      forall i, j | 0 <= i < j < n ensures b[..n][i].0 != b[..n][j].0 {
        assert b[..n][i] == b[i] && b[..n][j] == b[j];
      }
    }
    LookupAt(b[..n], n - 1);
  }

  /** Growing the prefix of `b` by one entry changes nothing for other keys. */
  lemma PrefixStep(b: seq<(Value, Value)>, n: nat, k: Value)
    requires 0 < n <= |b| && k != b[n - 1].0
    ensures Lookup(b[..n], k) == Lookup(b[..n - 1], k)
  {
    assert b[..n] == b[..n - 1] + [b[n - 1]];
    LookupAppendOther(b[..n - 1], b[n - 1], k);
  }

  /** The key-by-key meaning of `deep_merge`, for the first `n` entries of
      `b`: a key of those entries holds the combination of the left value
      and the right one, any other key keeps its left value. */
  lemma {:induction false} MergeIntoLookup(a: seq<(Value, Value)>, b: seq<(Value, Value)>, n: nat, k: Value)
    requires UniqueKeys(b) && n <= |b|
    ensures Lookup(MergeInto(a, Hash(b), n), k) ==
      match Lookup(b[..n], k)
      case None => Lookup(a, k)
      case Some(ov) => Some(Combined(Lookup(a, k), ov))
  {
    if n > 0 {
      MergeIntoLookup(a, b, n - 1, k);
      MergeIntoLookup(a, b, n - 1, b[n - 1].0);
      MergeIntoLookupStep(a, b, n, k);
    }
  }

  /** The step of `MergeIntoLookup` for the `n`-th entry of `b`. */
  lemma MergeIntoLookupStep(a: seq<(Value, Value)>, b: seq<(Value, Value)>, n: nat, k: Value)
    requires UniqueKeys(b) && 0 < n <= |b|
    requires Lookup(MergeInto(a, Hash(b), n - 1), k) ==
      match Lookup(b[..n - 1], k)
      case None => Lookup(a, k)
      case Some(ov) => Some(Combined(Lookup(a, k), ov))
    requires Lookup(MergeInto(a, Hash(b), n - 1), b[n - 1].0) ==
      match Lookup(b[..n - 1], b[n - 1].0)
      case None => Lookup(a, b[n - 1].0)
      case Some(ov) => Some(Combined(Lookup(a, b[n - 1].0), ov))
    ensures Lookup(MergeInto(a, Hash(b), n), k) ==
      match Lookup(b[..n], k)
      case None => Lookup(a, k)
      case Some(ov) => Some(Combined(Lookup(a, k), ov))
  {
    var r := MergeInto(a, Hash(b), n - 1);
    var bk := b[n - 1].0;
    var ov := b[n - 1].1;
    var tv := Lookup(r, bk);
    var nv := if tv.Some? && tv.value.Hash? && ov.Hash? then Hash(MergeInto(tv.value.entries, ov, |ov.entries|)) else ov;
    MergeUnfold(a, Hash(b), n);
    LookupStore(r, bk, nv, k);
    if k == bk {
      LastKeyFresh(b, n);
      LookupFound(b[..n - 1], bk);
    } else {
      PrefixStep(b, n, k);
    }
  }

  /** `deep_merge(a, b)` under every key: keys of `b` take the combined
      value, the others keep the value from `a`. */
  lemma MergeLookup(a: seq<(Value, Value)>, b: seq<(Value, Value)>, k: Value)
    requires UniqueKeys(b)
    ensures Lookup(DeepMerge(a, b), k) ==
      if k in Keys(b) then Some(Combined(Lookup(a, k), Get(b, k))) else Lookup(a, k)
  {
    MergeIntoLookup(a, b, |b|, k);
    assert b[..|b|] == b;
    LookupFound(b, k);
    if k in Keys(b) {
      assert Lookup(b, k) == Some(Get(b, k));
    }
  }

  /** Merging a well-formed tree into itself gives it back. */
  lemma {:induction false} MergeSelf(t: Value, n: nat)
    requires t.Hash? && WellFormed(t) && n <= |t.entries|
    ensures MergeInto(t.entries, t, n) == t.entries
    decreases t, n
  {
    if n > 0 {
      var v := t.entries[n - 1].1;
      WellFormedEntry(t, n - 1);
      LookupAt(t.entries, n - 1);
      if v.Hash? {
        MergeSelf(v, |v.entries|);
      }
      MergeSelf(t, n - 1);
      MergeSelfLast(t, n);
    }
  }

  /** The step of `MergeSelf` for the `n`-th entry. */
  lemma MergeSelfLast(t: Value, n: nat)
    requires t.Hash? && 0 < n <= |t.entries|
    requires MergeInto(t.entries, t, n - 1) == t.entries
    requires Lookup(t.entries, t.entries[n - 1].0) == Some(t.entries[n - 1].1)
    requires var v := t.entries[n - 1].1;
      v.Hash? ==> MergeInto(v.entries, v, |v.entries|) == v.entries
    ensures MergeInto(t.entries, t, n) == t.entries
  {
    var m := t.entries;
    MergeUnfold(m, t, n);
    MergeSelfStep(m, m[n - 1].0, m[n - 1].1, MergeInto(m, t, n - 1));
  }

  lemma MergeSelfStep(m: seq<(Value, Value)>, k: Value, v: Value, r: seq<(Value, Value)>)
    requires r == m && Lookup(m, k) == Some(v)
    requires v.Hash? ==> MergeInto(v.entries, v, |v.entries|) == v.entries
    ensures var tv := Lookup(r, k);
      Store(r, k, if tv.Some? && tv.value.Hash? && v.Hash? then Hash(MergeInto(tv.value.entries, v, |v.entries|)) else v) == m
  {
    StoreSame(m, k, v);
  }

  lemma MergeUnfold(acc: seq<(Value, Value)>, other: Value, n: nat)
    requires other.Hash? && 0 < n <= |other.entries|
    ensures var r := MergeInto(acc, other, n - 1);
      var k := other.entries[n - 1].0;
      var ov := other.entries[n - 1].1;
      var tv := Lookup(r, k);
      MergeInto(acc, other, n) ==
        Store(r, k, if tv.Some? && tv.value.Hash? && ov.Hash? then Hash(MergeInto(tv.value.entries, ov, |ov.entries|)) else ov)
  {
  }

  lemma WellFormedEntry(h: Value, i: nat)
    requires h.Hash? && i < |h.entries| && WellFormed(h)
    ensures WellFormed(h.entries[i].1) && h.entries[i].1 < h
    ensures UniqueKeys(h.entries)
  {
    assert h.entries[i] in h.entries;
  }

  /** `deep_merge(t, t) == t` for any settings tree. */
  lemma MergeIdempotent(t: seq<(Value, Value)>)
    requires WellFormed(Hash(t))
    ensures DeepMerge(t, t) == t
  {
    MergeSelf(Hash(t), |t|);
  }

  // ---------------------------------------------------------------------
  // deep_delete

  /** Deleting a path that leads through hashes to a non-nil value returns
      that value (a whole subtree when it is a Hash) and removes it, keeping
      the tree well formed. */
  lemma {:induction false} DeleteFound(m: seq<(Value, Value)>, keys: seq<string>, v: Value, default: Option<Value -> Value>)
    requires keys != [] && WellFormed(Hash(m))
    requires LookupPath(m, keys) == Some(v) && v != Nil
    ensures DeepDelete(m, keys, default).result == v
    ensures LookupPath(DeepDelete(m, keys, default).settings, keys) == None
    ensures WellFormed(Hash(DeepDelete(m, keys, default).settings))
    decreases keys
  {
    var key := Str(keys[0]);
    var value := Get(m, key);
    if |keys| == 1 {
      LookupRemove(m, key, key);
      RemoveWellFormed(m, key);
    } else {
      WellFormedChild(m, key);
      DeleteFound(value.entries, keys[1..], v, default);
      var d := DeepDelete(value.entries, keys[1..], default);
      var child := Hash(d.settings);
      assert DeepDelete(m, keys, default) == Deletion(Store(m, key, child), d.result);
      LookupStore(m, key, child, key);
      StoreWellFormed(m, key, child);
    }
  }

  /** Deleting a stored value keeps every hash on the way to it, even one
      that the deletion leaves empty. */
  lemma {:induction false} DeleteKeepsParents(m: seq<(Value, Value)>, keys: seq<string>, v: Value, default: Option<Value -> Value>)
    requires keys != [] && LookupPath(m, keys) == Some(v) && v != Nil
    ensures forall n :: 1 <= n < |keys| ==>
      LookupPath(DeepDelete(m, keys, default).settings, keys[..n]).Some? &&
      LookupPath(DeepDelete(m, keys, default).settings, keys[..n]).value.Hash?
    decreases keys
  {
    if |keys| > 1 {
      var key := Str(keys[0]);
      var value := Get(m, key);
      var d := DeepDelete(value.entries, keys[1..], default);
      DeleteKeepsParents(value.entries, keys[1..], v, default);
      var after := DeepDelete(m, keys, default).settings;
      assert after == Store(m, key, Hash(d.settings));
      LookupStore(m, key, Hash(d.settings), key);
      forall n | 1 <= n < |keys|
        ensures LookupPath(after, keys[..n]).Some? && LookupPath(after, keys[..n]).value.Hash?
      {
        if n > 1 {
          assert keys[..n][1..] == keys[1..][..n - 1];
        }
      }
    }
  }

  /** Deleting a path that stops at a missing or nil level (every level
      before it being a Hash or missing) leaves the tree unchanged and
      gives nil, or what the default block makes of the segment where it
      stopped. */
  lemma {:induction false} DeleteMissing(m: seq<(Value, Value)>, keys: seq<string>, default: Option<Value -> Value>)
    requires keys != [] && Descendable(m, keys)
    requires LookupPath(m, keys) == None || LookupPath(m, keys) == Some(Nil)
    ensures DeepDelete(m, keys, default).settings == m
    ensures default.None? ==> DeepDelete(m, keys, default).result == Nil
    ensures default.Some? ==>
      DeepDelete(m, keys, default).result == default.value(Str(keys[StopAt(m, keys)]))
    decreases keys
  {
    var key := Str(keys[0]);
    var value := Get(m, key);
    if |keys| > 1 && value.Hash? {
      DeleteMissing(value.entries, keys[1..], default);
      var d := DeepDelete(value.entries, keys[1..], default);
      assert DeepDelete(m, keys, default) == Deletion(Store(m, key, Hash(d.settings)), d.result);
      StoreSame(m, key, Hash(d.settings));
      var j := StopAt(value.entries, keys[1..]);
      assert StopAt(m, keys) == j + 1;
      assert keys[1..][j] == keys[j + 1];
    } else {
      assert value == Nil;
      assert DeepDelete(m, keys, default) == Deletion(m, if default.Some? then default.value(key) else Nil);
    }
  }

  /** The index of the segment where the walk of `deep_delete` stops: it
      goes on while more segments follow and the value found is a hash. */
  function StopAt(m: seq<(Value, Value)>, keys: seq<string>): (i: nat)
    requires keys != []
    ensures i < |keys|
    decreases keys
  {
    var value := Get(m, Str(keys[0]));
    if |keys| > 1 && value.Hash? then 1 + StopAt(value.entries, keys[1..]) else 0
  }

  /** Deleting one path leaves every path that diverges from it alone. */
  lemma {:induction false} DeleteKeepsOthers(m: seq<(Value, Value)>, keys: seq<string>, other: seq<string>,
                                             default: Option<Value -> Value>)
    requires keys != [] && WellFormed(Hash(m)) && Diverge(keys, other)
    ensures LookupPath(DeepDelete(m, keys, default).settings, other) == LookupPath(m, other)
    decreases keys
  {
    var key := Str(keys[0]);
    var value := Get(m, key);
    var here := Str(other[0]);
    if |keys| > 1 && value.Hash? {
      var d := DeepDelete(value.entries, keys[1..], default);
      var r := Store(m, key, Hash(d.settings));
      assert DeepDelete(m, keys, default).settings == r;
      LookupStore(m, key, Hash(d.settings), here);
      if other[0] == keys[0] {
        assert Lookup(m, key) == Some(value);
        WellFormedChild(m, key);
        DeleteKeepsOthers(value.entries, keys[1..], other[1..], default);
      }
    } else if value != Nil {
      assert DeepDelete(m, keys, default).settings == Remove(m, key);
      LookupRemove(m, key, here);
      if other[0] == keys[0] {
        assert Lookup(m, key) == Some(value);
      }
    }
  }

  /** What `set` stores, `delete` returns. */
  lemma {:induction false} SetThenDelete(m: seq<(Value, Value)>, keys: seq<string>, v: Value, default: Option<Value -> Value>)
    requires keys != [] && Descendable(m, keys) && v != Nil
    ensures DeepDelete(DeepSet(m, keys, v), keys, default).result == v
    decreases keys
  {
    var k := keys[0];
    if |keys| == 1 {
      var r := Store(m, Str(k), v);
      LookupStore(m, Str(k), v, Str(k));
      assert Get(r, Str(k)) == v;
      assert DeepDelete(r, keys, default).result == v;
    } else {
      var inner := Inner(Get(m, Str(k)));
      var child := Hash(DeepSet(inner, keys[1..], v));
      var r := Store(m, Str(k), child);
      assert DeepSet(m, keys, v) == r;
      LookupStore(m, Str(k), child, Str(k));
      assert Get(r, Str(k)) == child;
      SetThenDelete(inner, keys[1..], v, default);
      assert DeepDelete(r, keys, default).result == DeepDelete(child.entries, keys[1..], default).result;
    }
  }

  // ---------------------------------------------------------------------
  // normalize_hash

  /** A normalised hash is keyed by Symbols at every level and has unique keys. */
  lemma {:induction false} NormalizeShape(h: Value, n: nat)
    requires h.Hash? && n <= |h.entries|
    requires NormalizeUpTo(h, n).Ok?
    ensures SymbolKeyed(Hash(NormalizeUpTo(h, n).value))
    ensures WellFormed(Hash(NormalizeUpTo(h, n).value))
    decreases h, n, 1
  {
    if n > 0 {
      NormalizeOkParts(h, n);
      NormalizeShape(h, n - 1);
      NormalizeShapeLast(h, n);
    }
  }

  /** When the first `n` entries normalise, so do the first `n - 1`, the
      `n`-th value when it is a Hash, and its key converts to a Symbol. */
  lemma NormalizeOkParts(h: Value, n: nat)
    requires h.Hash? && 0 < n <= |h.entries|
    requires NormalizeUpTo(h, n).Ok?
    ensures NormalizeUpTo(h, n - 1).Ok?
    ensures var val := h.entries[n - 1].1;
      val.Hash? ==> val < h && NormalizeUpTo(val, |val.entries|).Ok?
    ensures h.entries[n - 1].0.Str? || h.entries[n - 1].0.Sym?
  {
    assert h.entries[n - 1] in h.entries;
    NormalizeUnfold(h, n);
  }

  /** The step of `NormalizeShape` for the `n`-th entry. */
  lemma {:induction false} NormalizeShapeLast(h: Value, n: nat)
    requires h.Hash? && 0 < n <= |h.entries|
    requires NormalizeUpTo(h, n).Ok? && NormalizeUpTo(h, n - 1).Ok?
    requires var acc := Hash(NormalizeUpTo(h, n - 1).value);
      SymbolKeyed(acc) && WellFormed(acc)
    ensures SymbolKeyed(Hash(NormalizeUpTo(h, n).value))
    ensures WellFormed(Hash(NormalizeUpTo(h, n).value))
    decreases h, n, 0
  {
    var key := h.entries[n - 1].0;
    var val := h.entries[n - 1].1;
    NormalizeOkParts(h, n);
    if val.Hash? {
      NormalizeShape(val, |val.entries|);
    }
    var nested := if val.Hash? then NormalizeUpTo(val, |val.entries|) else Ok([]);
    var acc := NormalizeUpTo(h, n - 1);
    NormalizeUnfold(h, n);
    assert NormalizeUpTo(h, n) == NormalizeStep(acc, key, val, nested);
    var value := if val.Hash? then Hash(nested.value) else val;
    StoreSymbolKeyed(acc.value, ToSym(key).value, value);
  }

  /** A hash that is already Symbol-keyed at every level normalises to itself. */
  lemma {:induction false} NormalizeSymbolKeyed(h: Value, n: nat)
    requires h.Hash? && n <= |h.entries| && SymbolKeyed(h) && WellFormed(h)
    ensures NormalizeUpTo(h, n) == Ok(h.entries[..n])
    decreases h, n, 1
  {
    if n > 0 {
      NormalizeSymbolKeyed(h, n - 1);
      NormalizeSymbolKeyedLast(h, n);
    }
  }

  /** The step of `NormalizeSymbolKeyed` for the `n`-th entry. */
  lemma {:induction false} NormalizeSymbolKeyedLast(h: Value, n: nat)
    requires h.Hash? && 0 < n <= |h.entries| && SymbolKeyed(h) && WellFormed(h)
    requires NormalizeUpTo(h, n - 1) == Ok(h.entries[..n - 1])
    ensures NormalizeUpTo(h, n) == Ok(h.entries[..n])
    decreases h, n, 0
  {
    var m := h.entries;
    var val := m[n - 1].1;
    SymbolKeyedEntry(h, n - 1);
    if val.Hash? {
      NormalizeSymbolKeyed(val, |val.entries|);
      TakeAll(val.entries);
    }
    LastKeyFresh(m, n);
    var nested := if val.Hash? then NormalizeUpTo(val, |val.entries|) else Ok([]);
    NormalizeUnfold(h, n);
    AppendStep(m[..n - 1], m[n - 1].0, val, nested);
    TakeSnoc(m, n);
  }

  lemma TakeSnoc<T>(m: seq<T>, n: nat)
    requires 0 < n <= |m|
    ensures m[..n - 1] + [m[n - 1]] == m[..n]
  {
  }

  lemma TakeAll<T>(m: seq<T>)
    ensures m[..|m|] == m
  {
  }

  lemma AppendStep(prev: seq<(Value, Value)>, key: Value, val: Value, nested: Result<seq<(Value, Value)>>)
    requires key.Sym? && key !in Keys(prev)
    requires val.Hash? ==> nested == Ok(val.entries)
    ensures NormalizeStep(Ok(prev), key, val, nested) == Ok(prev + [(key, val)])
  {
    StoreAppends(prev, key, val);
  }

  lemma SymbolKeyedEntry(h: Value, i: nat)
    requires h.Hash? && i < |h.entries| && SymbolKeyed(h) && WellFormed(h)
    ensures h.entries[i].0.Sym? && SymbolKeyed(h.entries[i].1) && WellFormed(h.entries[i].1)
    ensures h.entries[i].1 < h
  {
    assert h.entries[i] in h.entries;
  }

  lemma NormalizeUnfold(h: Value, n: nat)
    requires h.Hash? && 0 < n <= |h.entries|
    ensures var val := h.entries[n - 1].1;
      NormalizeUpTo(h, n) == NormalizeStep(NormalizeUpTo(h, n - 1), h.entries[n - 1].0, val,
        if val.Hash? then NormalizeUpTo(val, |val.entries|) else Ok([]))
  {
  }

  /** What `normalize_hash` keeps: an entry among the first `n` whose key
      no other entry converts to the same Symbol is found under that Symbol,
      with its value normalised when it is a Hash and unchanged otherwise. */
  lemma {:induction false} NormalizeLookup(h: Value, n: nat, i: nat)
    requires h.Hash? && n <= |h.entries| && NormalizeUpTo(h, n).Ok?
    requires i < n
    requires forall j :: 0 <= j < n && j != i ==> ToSym(h.entries[j].0) != ToSym(h.entries[i].0)
    ensures h.entries[i].0.Str? || h.entries[i].0.Sym?
    ensures var val := h.entries[i].1;
      val.Hash? ==> NormalizeUpTo(val, |val.entries|).Ok?
    ensures var (key, val) := h.entries[i];
      Lookup(NormalizeUpTo(h, n).value, ToSym(key).value) ==
        Some(if val.Hash? then Hash(NormalizeUpTo(val, |val.entries|).value) else val)
    decreases n
  {
    NormalizeOkParts(h, n);
    NormalizeUnfold(h, n);
    var key := h.entries[n - 1].0;
    var val := h.entries[n - 1].1;
    var prev := NormalizeUpTo(h, n - 1).value;
    var stored := if val.Hash? then Hash(NormalizeUpTo(val, |val.entries|).value) else val;
    assert NormalizeUpTo(h, n).value == Store(prev, ToSym(key).value, stored);
    if i == n - 1 {
      LookupStore(prev, ToSym(key).value, stored, ToSym(key).value);
    } else {
      NormalizeLookup(h, n - 1, i);
      LookupStore(prev, ToSym(key).value, stored, ToSym(h.entries[i].0).value);
    }
  }

  /** A Symbol that no key among the first `n` converts to is absent from
      the normalised hash. */
  lemma {:induction false} NormalizeLookupAbsent(h: Value, n: nat, s: Value)
    requires h.Hash? && n <= |h.entries| && NormalizeUpTo(h, n).Ok?
    requires forall j :: 0 <= j < n ==> ToSym(h.entries[j].0) != Ok(s)
    ensures Lookup(NormalizeUpTo(h, n).value, s) == None
    decreases n
  {
    if n > 0 {
      NormalizeOkParts(h, n);
      NormalizeUnfold(h, n);
      var key := h.entries[n - 1].0;
      var val := h.entries[n - 1].1;
      var prev := NormalizeUpTo(h, n - 1).value;
      var stored := if val.Hash? then Hash(NormalizeUpTo(val, |val.entries|).value) else val;
      assert NormalizeUpTo(h, n).value == Store(prev, ToSym(key).value, stored);
      NormalizeLookupAbsent(h, n - 1, s);
      LookupStore(prev, ToSym(key).value, stored, s);
    }
  }

  /** `normalize_hash` is idempotent. */
  lemma NormalizeIdempotent(h: seq<(Value, Value)>)
    requires NormalizeHash(h).Ok?
    ensures NormalizeHash(NormalizeHash(h).value) == NormalizeHash(h)
  {
    var r := NormalizeHash(h).value;
    NormalizeShape(Hash(h), |h|);
    NormalizeSymbolKeyed(Hash(r), |r|);
    assert r[..|r|] == r;
  }
}
