/** The Ruby objects a configuration holds. A Hash is an insertion-ordered
    list of pairs whose keys are themselves values, so a String key "a"
    and a Symbol key :a are different keys, as in Ruby. A block or lambda
    given to `set` is a `Proc` with its `lambda?` flag, its arity and the
    value it returns when called; `Validated` is the lambda
    `delay_validation` wraps around a zero-argument callable so that
    validation runs when it is called. */
module Values {
  import opened Outcomes
  import opened OrderedMaps

  datatype Value =
    | Nil
    | Bool(b: bool)
    | Int(i: int)
    | Str(s: string)
    | Sym(name: string)
    | Arr(items: seq<Value>)
    | Hash(entries: seq<(Value, Value)>)
    | Proc(isLambda: bool, arity: int, result: Value)
    | Validated(key: string, callback: Value)

  /** Ruby truthiness: everything except nil and false. */
  predicate Truthy(v: Value) {
    !(v.Nil? || v == Bool(false))
  }

  /** `callable_without_params?`: responds to `call` with arity zero. */
  predicate CallableWithoutParams(v: Value)
    ensures CallableWithoutParams(v) ==> v.Proc? || v.Validated?
    ensures v.Proc? ==> (CallableWithoutParams(v) <==> v.arity == 0)
    ensures v.Validated? ==> CallableWithoutParams(v)
  {
    (v.Proc? && v.arity == 0) || v.Validated?
  }

  /** `Hash#[]`: the value under `k`, nil when absent. */
  function Get(m: seq<(Value, Value)>, k: Value): Value {
    match Lookup(m, k)
    case Some(v) => v
    case None => Nil
  }

  /** `Kernel#Array`: nil is empty, an array is itself, a hash becomes its
      list of [key, value] pairs, anything else a one-element array. */
  function ToArray(v: Value): (r: seq<Value>)
    ensures v.Nil? ==> r == []
    ensures v.Arr? ==> r == v.items
    ensures v.Hash? ==> |r| == |v.entries|
    ensures v.Hash? ==> forall i :: 0 <= i < |r| ==> r[i] == Arr([v.entries[i].0, v.entries[i].1])
    ensures !(v.Nil? || v.Arr? || v.Hash?) ==> r == [v]
  {
    match v
    case Nil => []
    case Arr(items) => items
    case Hash(es) => seq(|es|, i requires 0 <= i < |es| => Arr([es[i].0, es[i].1]))
    case _ => [v]
  }

  /** `Array#-`: the elements of `a` that do not occur in `b`, in order,
      with every occurrence removed. */
  function Difference(a: seq<Value>, b: seq<Value>): (r: seq<Value>)
    ensures forall x :: x in r <==> x in a && x !in b
    ensures |r| <= |a|
  {
    if a == [] then []
    else if a[0] in b then Difference(a[1..], b)
    else [a[0]] + Difference(a[1..], b)
  }

  /** Every hash in the tree has unique keys, as every Ruby Hash does. */
  ghost predicate WellFormed(v: Value) {
    match v
    case Hash(es) =>
      && UniqueKeys(es)
      && forall i :: 0 <= i < |es| ==> WellFormed(es[i].1)
    case _ => true
  }

  /** Every hash in the tree is keyed by Strings only, as the trees `set`
      builds are. */
  ghost predicate StringKeyed(v: Value) {
    match v
    case Hash(es) => forall i :: 0 <= i < |es| ==> es[i].0.Str? && StringKeyed(es[i].1)
    case _ => true
  }

  /** Every hash in the tree is keyed by Symbols only, as `normalize_hash`
      produces. */
  ghost predicate SymbolKeyed(v: Value) {
    match v
    case Hash(es) => forall i :: 0 <= i < |es| ==> es[i].0.Sym? && SymbolKeyed(es[i].1)
    case _ => true
  }

  /** `Array#-` keeps the order of what it keeps: it is `a` with the
      removed elements filtered out. */
  lemma {:induction false} DifferenceOfAppend(a: seq<Value>, c: seq<Value>, b: seq<Value>)
    ensures Difference(a + c, b) == Difference(a, b) + Difference(c, b)
  {
    if a != [] {
      assert (a + c)[1..] == a[1..] + c;
      DifferenceOfAppend(a[1..], c, b);
    } else {
      assert a + c == c;
    }
  }

  /** Removing nothing keeps the array. */
  lemma {:induction false} DifferenceOfNothing(a: seq<Value>)
    ensures Difference(a, []) == a
  {
    if a != [] {
      DifferenceOfNothing(a[1..]);
    }
  }
}
