/** Deferred settings: a value given as a block or a zero-argument proc is
    stored as it is and called when it is fetched. A key with validators
    stores such a callable wrapped by `delay_validation`, so that each
    call checks the produced value. */
module Deferred {
  import opened Outcomes
  import opened Values

  /** A validation block, called with the flat key and the value; it
      passes or raises. What it returns otherwise is ignored. */
  type Validator = (string, Value) -> Option<Error>

  /** `assert_valid` on one list of validators: they run in registration
      order and the first one to raise aborts the rest. */
  function FirstFailure(vs: seq<Validator>, key: string, value: Value): (r: Option<Error>)
    ensures r.None? <==> forall i :: 0 <= i < |vs| ==> vs[i](key, value).None?
    ensures r.Some? ==> exists i :: (0 <= i < |vs| && vs[i](key, value) == r &&
      forall j :: 0 <= j < i ==> vs[j](key, value).None?)
  {
    if vs == [] then None
    else if vs[0](key, value).Some? then vs[0](key, value)
    else
      var rest := FirstFailure(vs[1..], key, value);
      assert rest.Some? ==> exists i :: (1 <= i < |vs| && vs[i](key, value) == rest &&
        forall j :: 0 <= j < i ==> vs[j](key, value).None?) by {
        if rest.Some? {
          var i :| 0 <= i < |vs| - 1 && vs[1..][i](key, value) == rest &&
            forall j :: 0 <= j < i ==> vs[1..][j](key, value).None?;
          assert vs[i + 1](key, value) == rest;
          forall j | 0 <= j < i + 1 ensures vs[j](key, value).None? {
            if j > 0 { assert vs[j] == vs[1..][j - 1]; }
          }
        }
      }
      rest
  }

  /** `assert_valid(key, value)`: the validators registered under `key`,
      each called in turn. With no entry for the key Ruby calls `each` on
      nil. */
  function AssertValid(validators: map<string, seq<Validator>>, key: string, value: Value): (r: Option<Error>)
    ensures key !in validators ==> r == Some(NoMethodError("each"))
    ensures key in validators ==> (r.None? <==> forall i :: 0 <= i < |validators[key]| ==> validators[key][i](key, value).None?)
  {
    if key in validators then FirstFailure(validators[key], key, value)
    else Some(NoMethodError("each"))
  }

  /** One call `value.()` of a callable without parameters. A proc (a
      block) returns its result; the lambda of `delay_validation` calls the
      wrapped callback once and then validates what it returned. The value
      returned is always a part of the callable, so repeated calls end. */
  function Invoke(v: Value, validators: map<string, seq<Validator>>): (r: Result<Value>)
    requires CallableWithoutParams(v)
    ensures r.Ok? ==> r.value < v
    ensures v.Proc? ==> r == Ok(v.result)
  {
    match v
    case Proc(_, _, result) => Ok(result)
    case Validated(key, callback) =>
      if !CallableWithoutParams(callback) then Err(NoMethodError("call"))
      else
        match Invoke(callback, validators)
        case Err(e) => Err(e)
        case Ok(val) =>
          match AssertValid(validators, key, val)
          case Some(e) => Err(e)
          case None => Ok(val)
  }

  /** The loop at the end of `fetch`: call the value while it is a
      callable without parameters. */
  function Unwrap(v: Value, validators: map<string, seq<Validator>>): (r: Result<Value>)
    ensures r.Ok? ==> !CallableWithoutParams(r.value)
    ensures !CallableWithoutParams(v) ==> r == Ok(v)
    decreases v
  {
    if !CallableWithoutParams(v) then Ok(v)
    else
      match Invoke(v, validators)
      case Err(e) => Err(e)
      case Ok(next) => Unwrap(next, validators)
  }

  /** `delay_validation(key, callback)` */
  function DelayValidation(key: string, callback: Value): (r: Value)
    ensures CallableWithoutParams(r)
    ensures forall validators :: CallableWithoutParams(callback) ==>
      (Invoke(r, validators).Ok? <==>
         Invoke(callback, validators).Ok? && AssertValid(validators, key, Invoke(callback, validators).value).None?)
    ensures forall validators :: CallableWithoutParams(callback) && Invoke(r, validators).Ok? ==>
      Invoke(r, validators) == Invoke(callback, validators)
  {
    Validated(key, callback)
  }

  /** A wrapped block produces its value when the validators accept it,
      and the first validator error otherwise. */
  lemma DelayedBlock(key: string, isLambda: bool, arity: int, result: Value, validators: map<string, seq<Validator>>)
    requires arity == 0 && key in validators
    ensures Invoke(DelayValidation(key, Proc(isLambda, arity, result)), validators) ==
      match FirstFailure(validators[key], key, result)
      case Some(e) => Err(e)
      case None => Ok(result)
  {
  }

  /** A validator registered later runs only when every earlier one
      passes: `validate` appends to the list `assert_valid` walks. */
  lemma {:induction false} FirstFailureAppend(vs: seq<Validator>, f: Validator, key: string, value: Value)
    ensures FirstFailure(vs + [f], key, value) ==
      if FirstFailure(vs, key, value).Some? then FirstFailure(vs, key, value) else f(key, value)
  {
    if vs == [] {
      assert [] + [f] == [f];
    } else {
      assert (vs + [f])[0] == vs[0];
      assert (vs + [f])[1..] == vs[1..] + [f];
      FirstFailureAppend(vs[1..], f, key, value);
    }
  }
}
