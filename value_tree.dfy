/** Tree surgery on nested settings hashes: the `deep_*` helpers of the
    configuration object and `normalize_hash`. A hash is given by its list
    of entries; the Ruby code mutates nested hashes in place, the model
    returns the new entries. */
module ValueTree {
  import opened Outcomes
  import opened OrderedMaps
  import opened Values
  import opened Text

  /** The message Ruby gives when a String, Symbol, Integer or Array is
      indexed with a Symbol. */
  const NoImplicitSymbol := "no implicit conversion of Symbol into Integer"

  /** `settings.fetch(key.to_s, settings[key.to_sym])`: the String key
      first, the Symbol key when the String key is absent. */
  function IndifferentGet(m: seq<(Value, Value)>, k: string): (r: Value)
    ensures Str(k) in Keys(m) ==> (Str(k), r) in m
    ensures Str(k) !in Keys(m) && Sym(k) in Keys(m) ==> (Sym(k), r) in m
    ensures Str(k) !in Keys(m) && Sym(k) !in Keys(m) ==> r == Nil
  {
    LookupFound(m, Str(k));
    LookupFound(m, Sym(k));
    match Lookup(m, Str(k))
    case Some(v) => v
    case None => Get(m, Sym(k))
  }

  /** Whether a lambda of this arity can be called with one argument:
      arity 1, or a negative arity -(r+1) with at most one required
      parameter. */
  predicate AcceptsOneArgument(arity: int) {
    arity == 1 || arity == -1 || arity == -2
  }

  /** The ArgumentError message of a lambda of `arity` called with one
      argument: `expected n` for a fixed arity, `expected r+` otherwise. */
  function ArityMessage(arity: int): string {
    "wrong number of arguments (given 1, expected " +
      (if arity >= 0 then NatToString(arity) else NatToString(-arity - 1) + "+") + ")"
  }

  /** What `deep_fetch` raises when it must descend into `v`, which is
      neither nil nor a Hash. `settings[key.to_sym]` is evaluated before
      `fetch` is sent, so a Proc is first called with the Symbol: a block
      ignores it and then lacks `fetch`, a lambda checks its arity. */
  function DescendError(v: Value): (e: Error)
    requires !v.Nil? && !v.Hash?
    ensures e.ArgumentError? <==> v.Validated? || (v.Proc? && v.isLambda && !AcceptsOneArgument(v.arity))
    ensures v.Proc? && !e.ArgumentError? ==> e == NoMethodError("fetch")
  {
    match v
    case Bool(_) => NoMethodError("[]")
    case Proc(isLambda, arity, _) =>
      if isLambda && !AcceptsOneArgument(arity) then ArgumentError(ArityMessage(arity))
      else NoMethodError("fetch")
    case Validated(_, _) => ArgumentError(ArityMessage(0))
    case _ => TypeError(NoImplicitSymbol)
  }

  /** `deep_fetch`: indifferent lookup along the path, stopping at the
      first nil. With no keys at all, `nil.to_sym` fails. */
  function DeepFetch(m: seq<(Value, Value)>, keys: seq<string>): (r: Result<Value>)
    ensures keys == [] <==> r == Err(NoMethodError("to_sym"))
    decreases keys
  {
    if keys == [] then Err(NoMethodError("to_sym"))
    else
      var value := IndifferentGet(m, keys[0]);
      if value == Nil || |keys| == 1 then Ok(value)
      else if value.Hash? then DeepFetch(value.entries, keys[1..])
      else Err(DescendError(value))
  }

  /** The entries of `c` when it is a Hash; the fresh `{}` that `deep_set`
      puts in place of a nil or missing value otherwise. */
  function Inner(c: Value): seq<(Value, Value)> {
    if c.Hash? then c.entries else []
  }

  /** Every intermediate segment of `keys` is missing, nil or a Hash, so
      `deep_set` can descend. (On any other object Ruby would call that
      object's own `[]=`.) */
  predicate Descendable(m: seq<(Value, Value)>, keys: seq<string>)
    decreases keys
  {
    |keys| <= 1 ||
      (var c := Get(m, Str(keys[0]));
       (c.Nil? || c.Hash?) && Descendable(Inner(c), keys[1..]))
  }

  /** `deep_set` followed by `deepest_setting[keys.last] = value`: missing
      or nil levels become new hashes, existing hashes are kept in place,
      and the value is stored under the last segment (under the key nil
      when there are no segments). */
  function DeepSet(m: seq<(Value, Value)>, keys: seq<string>, v: Value): (r: seq<(Value, Value)>)
    requires Descendable(m, keys)
    ensures keys == [] ==> Get(r, Nil) == v
    ensures |keys| == 1 ==> Get(r, Str(keys[0])) == v
    ensures |keys| > 1 ==> Get(r, Str(keys[0])).Hash?
    ensures var head := if keys == [] then Nil else Str(keys[0]);
      Keys(r) == Keys(m) || Keys(r) == Keys(m) + [head]
    decreases keys
  {
    var head := if keys == [] then Nil else Str(keys[0]);
    var stored := if |keys| <= 1 then v else Hash(DeepSet(Inner(Get(m, head)), keys[1..], v));
    LookupStore(m, head, stored, head);
    StoreKeys(m, head, stored);
    Store(m, head, stored)
  }

  /** `deep_merge`, folded over the first `n` entries of `other`: a key in
      both whose values are both hashes is merged recursively, otherwise
      the value from `other` wins; keys only in `acc` stay where they are,
      new keys are appended (`Hash#merge` with a block). */
  function MergeInto(acc: seq<(Value, Value)>, other: Value, n: nat): (r: seq<(Value, Value)>)
    requires other.Hash? && n <= |other.entries|
    decreases other, n
  {
    if n == 0 then acc
    else
      var r := MergeInto(acc, other, n - 1);
      var k := other.entries[n - 1].0;
      var ov := other.entries[n - 1].1;
      assert other.entries[n - 1] in other.entries;
      var tv := Lookup(r, k);
      Store(r, k, if tv.Some? && tv.value.Hash? && ov.Hash? then Hash(MergeInto(tv.value.entries, ov, |ov.entries|)) else ov)
  }

  /** `deep_merge(a, b)`: the merged hash holds exactly the keys of both. */
  function DeepMerge(a: seq<(Value, Value)>, b: seq<(Value, Value)>): (r: seq<(Value, Value)>)
    ensures forall k :: k in Keys(r) <==> k in Keys(a) || k in Keys(b)
  {
    MergeIntoKeys(a, Hash(b), |b|);
    assert b[..|b|] == b;
    MergeInto(a, Hash(b), |b|)
  }

  /** Merging the first `n` pairs of `other` adds their keys and no others. */
  lemma {:induction false} MergeIntoKeys(acc: seq<(Value, Value)>, other: Value, n: nat)
    requires other.Hash? && n <= |other.entries|
    ensures forall k :: k in Keys(MergeInto(acc, other, n)) <==> k in Keys(acc) || k in Keys(other.entries[..n])
    decreases n
  {
    if n > 0 {
      MergeIntoKeys(acc, other, n - 1);
      var r := MergeInto(acc, other, n - 1);
      var k := other.entries[n - 1].0;
      var ov := other.entries[n - 1].1;
      var tv := Lookup(r, k);
      var stored := if tv.Some? && tv.value.Hash? && ov.Hash? then Hash(MergeInto(tv.value.entries, ov, |ov.entries|)) else ov;
      assert MergeInto(acc, other, n) == Store(r, k, stored);
      StoreKeys(r, k, stored);
      assert other.entries[..n][..n - 1] == other.entries[..n - 1];
      KeysSnoc(other.entries[..n]);
    }
  }

  /** What `deep_merge` keeps under a key: the merge of two hashes, or the
      right-hand value. */
  function Combined(left: Option<Value>, right: Value): Value {
    if left.Some? && left.value.Hash? && right.Hash? then
      Hash(DeepMerge(left.value.entries, right.entries))
    else right
  }

  /** The outcome of `deep_delete`: the new entries and the returned object. */
  datatype Deletion = Deletion(settings: seq<(Value, Value)>, result: Value)

  /** `deep_delete`: descend while there are more segments and the value
      is a Hash; delete a non-nil value where the descent stops (a whole
      subtree when it is a Hash) and return it; otherwise call the default
      block with the segment, or return nil. Parent hashes stay in place. */
  function DeepDelete(m: seq<(Value, Value)>, keys: seq<string>, default: Option<Value -> Value>): (r: Deletion)
    ensures |r.settings| <= |m|
    ensures r.result == Nil ==> r.settings == m
    decreases keys
  {
    var key := if keys == [] then Nil else Str(keys[0]);
    var rest := if keys == [] then [] else keys[1..];
    var value := Get(m, key);
    if rest != [] && value.Hash? then
      var d := DeepDelete(value.entries, rest, default);
      LookupFound(m, key);
      StoreKeys(m, key, Hash(d.settings));
      assert d.result == Nil ==> Store(m, key, Hash(d.settings)) == m by {
        if d.result == Nil {
          StoreSame(m, key, Hash(d.settings));
        }
      }
      Deletion(Store(m, key, Hash(d.settings)), d.result)
    else if value != Nil then
      Deletion(Remove(m, key), value)
    else
      Deletion(m, if default.Some? then default.value(key) else Nil)
  }

  /** Plain `Hash#[]` along a path of String segments, through hashes only;
      `None` when a level is missing or not a Hash. */
  function LookupPath(m: seq<(Value, Value)>, keys: seq<string>): (r: Option<Value>)
    requires keys != []
    ensures |keys| == 1 ==> r == Lookup(m, Str(keys[0]))
    decreases keys
  {
    var c := Lookup(m, Str(keys[0]));
    if |keys| == 1 then c
    else if c.Some? && c.value.Hash? then LookupPath(c.value.entries, keys[1..])
    else None
  }

  /** `key.public_send(:to_sym)`: Strings and Symbols only. */
  function ToSym(key: Value): (r: Result<Value>)
    ensures r.Ok? <==> key.Str? || key.Sym?
    ensures r.Ok? ==> r.value.Sym?
  {
    match key
    case Str(s) => Ok(Sym(s))
    case Sym(_) => Ok(key)
    case _ => Err(NoMethodError("to_sym"))
  }

  /** `normalize_hash(hash, :to_sym)` over the first `n` entries: nested
      hashes are normalised first, then the key is converted, and the
      pair is assigned into a fresh hash (a later key that converts to
      the same Symbol overwrites the earlier one in place). */
  function NormalizeUpTo(h: Value, n: nat): (r: Result<seq<(Value, Value)>>)
    requires h.Hash? && n <= |h.entries|
    ensures r.Err? ==> r.error == NoMethodError("to_sym")
    ensures r.Ok? ==> forall i :: 0 <= i < n ==> h.entries[i].0.Str? || h.entries[i].0.Sym?
    decreases h, n
  {
    if n == 0 then Ok([])
    else
      var val := h.entries[n - 1].1;
      assert h.entries[n - 1] in h.entries;
      var nested := if val.Hash? then NormalizeUpTo(val, |val.entries|) else Ok([]);
      NormalizeStep(NormalizeUpTo(h, n - 1), h.entries[n - 1].0, val, nested)
  }

  /** One entry of `normalize_hash`: `nested` is the normalised form of
      `val` when `val` is a Hash. The first failure wins. */
  function NormalizeStep(acc: Result<seq<(Value, Value)>>, key: Value, val: Value,
                         nested: Result<seq<(Value, Value)>>): Result<seq<(Value, Value)>>
  {
    if acc.Err? then acc
    else if val.Hash? && nested.Err? then Err(nested.error)
    else if !(key.Str? || key.Sym?) then Err(NoMethodError("to_sym"))
    else Ok(Store(acc.value, ToSym(key).value, if val.Hash? then Hash(nested.value) else val))
  }

  /** `normalize_hash(h)`: only a key without `to_sym` makes it fail, and
      every top-level key of a hash that normalises has one. */
  function NormalizeHash(h: seq<(Value, Value)>): (r: Result<seq<(Value, Value)>>)
    ensures r.Err? ==> r.error == NoMethodError("to_sym")
    ensures r.Ok? ==> forall i :: 0 <= i < |h| ==> ToSym(h[i].0).Ok?
  {
    NormalizeUpTo(Hash(h), |h|)
  }

}
