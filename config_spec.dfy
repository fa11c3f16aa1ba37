/** The settings operations of a configuration object as functions of its
    state: what `fetch` returns, and what `set`, `set_if_empty`, `append`,
    `remove`, `alias_setting`, `validate` and `set_from_env` produce. The
    process environment `ENV` is a parameter. Key arguments are given by
    their `to_s` strings. */
module ConfigSpec {
  import opened Outcomes
  import opened Text
  import opened KeyPaths
  import opened Values
  import opened ValueTree
  import opened Deferred
  import opened EnvNames
  import opened TreeLemmas

  /** The process environment, `ENV`. */
  type Environ = map<string, string>

  /** The state the settings operations read and write. */
  datatype ConfigState = ConfigState(
    settings: seq<(Value, Value)>,
    validators: map<string, seq<Validator>>,
    envs: map<string, string>,
    aliases: map<string, string>,
    envPrefix: string,
    envSeparator: string,
    autoloadEnv: bool,
    preferred: Source)

  /** The segments `fetch` reads: those of the alias target when the flat
      key of the arguments is an alias. */
  function FetchKeys(aliases: map<string, string>, keys: seq<string>): (r: seq<string>)
    ensures FlattenKeys(keys) !in aliases ==> r == ConvertToKeys(keys)
  {
    var flat := FlattenKeys(keys);
    ConvertToKeys(if flat in aliases then Split(aliases[flat], KeyDelim) else keys)
  }

  /** The ENV name `fetch` consults: with autoload on, the name of the
      first segment; otherwise the name bound to the flat key, if any. */
  function EnvKey(st: ConfigState, path: seq<string>): (r: Option<string>)
    ensures st.autoloadEnv ==> r.Some?
    ensures !st.autoloadEnv ==> (r.Some? <==> FlattenKeys(path) in st.envs)
  {
    if st.autoloadEnv then Some(ToEnvKey(if path == [] then "" else path[0], st.envPrefix, st.envSeparator))
    else if FlattenKeys(path) in st.envs then Some(st.envs[FlattenKeys(path)])
    else None
  }

  /** `ENV[name]` for a name that may be absent. */
  function EnvValue(env: Environ, name: Option<string>): (r: Value)
    ensures r.Nil? <==> name.None? || name.value !in env
  {
    if name.Some? && name.value in env then Str(env[name.value]) else Nil
  }

  /** The value `fetch` selects before unwrapping callables. With settings
      preferred: the tree, then the ENV variable, then the block or the
      default. With the environment preferred: the ENV variable, then the
      tree. Only nil falls through. */
  function Selected(st: ConfigState, env: Environ, keys: seq<string>, default: Value,
                    block: Option<Value>, prefer: string): (r: Result<Value>)
    ensures NormalizePreferred(prefer).Err? ==> r == Err(NormalizePreferred(prefer).error)
    ensures NormalizePreferred(prefer) == Ok(Settings) && block.None? && !default.Nil? && r.Ok? ==> !r.value.Nil?
  {
    var path := FetchKeys(st.aliases, keys);
    var name := EnvKey(st, path);
    var source :- NormalizePreferred(prefer);
    match source
    case Settings =>
      var found :- DeepFetch(st.settings, path);
      var value := if found.Nil? then EnvValue(env, name) else found;
      Ok(if !value.Nil? then value else if block.Some? then block.value else default)
    case Environment =>
      var value := EnvValue(env, name);
      if !value.Nil? then Ok(value) else DeepFetch(st.settings, path)
  }

  /** `fetch(*keys, default:, prefer:, &block)`. The unwrapped value is
      returned and never written back. */
  function Fetched(st: ConfigState, env: Environ, keys: seq<string>, default: Value,
                   block: Option<Value>, prefer: string): (r: Result<Value>)
    ensures r.Ok? ==> !CallableWithoutParams(r.value)
    ensures NormalizePreferred(prefer).Err? ==> r.Err? && r.error.UnsupportedSource?
  {
    var value :- Selected(st, env, keys, default, block, prefer);
    Unwrap(value, st.validators)
  }

  /** `fetch(*keys)` with the arguments the library itself passes. */
  function FetchPlain(st: ConfigState, env: Environ, keys: seq<string>): Result<Value> {
    Fetched(st, env, keys, Nil, None, SourceName(st.preferred))
  }

  /** The new settings and the value an operation stores. */
  datatype Stored = Stored(settings: seq<(Value, Value)>, value: Value)

  /** `assert_either_value_or_block`: exactly one of the two is given. */
  function EitherValueOrBlock(value: Value, block: Option<Value>): (r: Option<Error>)
    ensures r.None? <==> (value.Nil? <==> block.Some?)
  {
    if value.Nil? && block.None? then Some(ArgumentError("Need to set either value or block"))
    else if !(value.Nil? || block.None?) then Some(ArgumentError("Can't set both value and block"))
    else None
  }

  /** `set(*keys, value:, &block)`. When the flat key has validators, a
      callable without parameters is stored wrapped by `delay_validation`;
      anything else is checked first, by calling the validators with the
      `value` argument. */
  function SetOutcome(st: ConfigState, keys: seq<string>, value: Value, block: Option<Value>): (r: Result<Stored>)
    requires Descendable(st.settings, ConvertToKeys(keys))
    ensures value.Nil? == block.None? ==> r.Err? && r.error.ArgumentError?
    ensures FlattenKeys(ConvertToKeys(keys)) !in st.validators ==> (r.Ok? <==> value.Nil? != block.None?)
    ensures r.Ok? ==> r.value.settings == DeepSet(st.settings, ConvertToKeys(keys), r.value.value)
  {
    match EitherValueOrBlock(value, block)
    case Some(e) => Err(e)
    case None =>
      var path := ConvertToKeys(keys);
      var key := FlattenKeys(path);
      var given := if block.Some? then block.value else value;
      var delayed := key in st.validators && CallableWithoutParams(given);
      var check := if key in st.validators && !delayed then AssertValid(st.validators, key, value) else None;
      if check.Some? then Err(check.value)
      else
        var stored := if delayed then DelayValidation(key, given) else given;
        Ok(Stored(DeepSet(st.settings, path, stored), stored))
  }

  /** `set_if_empty(*keys, value:, &block)`: `set` only where `deep_fetch`
      finds nil; a block is passed on alone. */
  function SetIfEmptyOutcome(st: ConfigState, keys: seq<string>, value: Value, block: Option<Value>): (r: Result<Stored>)
    ensures DeepFetch(st.settings, ConvertToKeys(keys)).Err? ==> r.Err?
    ensures r.Ok? && r.value.settings != st.settings ==> DeepFetch(st.settings, ConvertToKeys(keys)) == Ok(Nil)
    ensures r.Ok? && !r.value.value.Nil? ==> DeepFetch(st.settings, ConvertToKeys(keys)) == Ok(Nil)
  {
    var path := ConvertToKeys(keys);
    var current :- DeepFetch(st.settings, path);
    if !current.Nil? then Ok(Stored(st.settings, Nil))
    else
      NilFetchDescendable(st.settings, path);
      ConvertIdempotent(keys);
      if block.Some? then SetOutcome(st, path, Nil, block) else SetOutcome(st, path, value, None)
  }

  /** `append(*values, to:)`; `to` is the key list `Array(to)`. */
  function AppendOutcome(st: ConfigState, env: Environ, values: seq<Value>, to: seq<string>): (r: Result<Stored>)
    requires Descendable(st.settings, ConvertToKeys(to))
    ensures r.Ok? ==> r.value.settings == DeepSet(st.settings, ConvertToKeys(to), r.value.value)
    ensures r.Ok? ==> var stored := r.value.value;
      stored.Arr? && |values| <= |stored.items| && stored.items[|stored.items| - |values|..] == values
  {
    var current :- FetchPlain(st, env, to);
    SetOutcome(st, to, Arr(ToArray(current) + values), None)
  }

  /** `remove(*values, from:)`; `from` is the key list `Array(from)`. */
  function RemoveOutcome(st: ConfigState, env: Environ, values: seq<Value>, from: seq<string>): (r: Result<Stored>)
    requires Descendable(st.settings, ConvertToKeys(from))
    ensures r.Ok? ==> from != [] && r.value.settings == DeepSet(st.settings, ConvertToKeys(from), r.value.value)
    ensures r.Ok? ==> r.value.value.Arr? && forall x :: x in r.value.value.items ==> x !in values
  {
    if from == [] then Err(ArgumentError("Need to set key to remove from"))
    else
      var current :- FetchPlain(st, env, from);
      SetOutcome(st, from, Arr(Difference(ToArray(current), values)), None)
  }

  /** A key argument given as a String or a Symbol. */
  predicate KeyArgs(vs: seq<Value>) {
    forall i :: 0 <= i < |vs| ==> vs[i].Str? || vs[i].Sym?
  }

  /** `to_s` of a String or Symbol key argument. */
  function KeyText(v: Value): string
    requires v.Str? || v.Sym?
  {
    if v.Str? then v.s else v.name
  }

  /** `inspect` of a String or Symbol key argument. */
  function Inspect(v: Value): string
    requires v.Str? || v.Sym?
  {
    if v.Str? then "\"" + v.s + "\"" else ":" + v.name
  }

  function KeyTexts(vs: seq<Value>): (r: seq<string>)
    requires KeyArgs(vs)
    ensures |r| == |vs|
  {
    seq(|vs|, i requires 0 <= i < |vs| && KeyArgs(vs) => KeyText(vs[i]))
  }

  function Inspected(vs: seq<Value>): (r: seq<string>)
    requires KeyArgs(vs)
    ensures |r| == |vs|
  {
    seq(|vs|, i requires 0 <= i < |vs| && KeyArgs(vs) => Inspect(vs[i]))
  }

  /** `alias_setting(*keys, to:)`: the new alias table. The alias must
      differ from the setting's key and must not fetch a truthy value. */
  function AliasOutcome(st: ConfigState, env: Environ, keys: seq<string>, to: seq<Value>): (r: Result<map<string, string>>)
    requires KeyArgs(to)
    ensures FlattenKeys(KeyTexts(to)) == FlattenKeys(keys) ==> r.Err?
    ensures r.Ok? ==> r.value.Keys == st.aliases.Keys + {FlattenKeys(KeyTexts(to))}
    ensures r.Ok? ==> r.value[FlattenKeys(KeyTexts(to))] == FlattenKeys(keys)
    ensures r.Ok? ==> forall a :: a in st.aliases && a != FlattenKeys(KeyTexts(to)) ==> r.value[a] == st.aliases[a]
  {
    var flatSetting := FlattenKeys(keys);
    var aliasKey := FlattenKeys(KeyTexts(to));
    if aliasKey == flatSetting then Err(ArgumentError("Alias matches setting key"))
    else
      var existing :- FetchPlain(st, env, [aliasKey]);
      if Truthy(existing) then
        Err(ArgumentError("Setting already exists with an alias '" + Join(Inspected(to), ", ") + "'"))
      else Ok(st.aliases[aliasKey := flatSetting])
  }

  /** `validate(*keys, &validator)`: the validator joins the end of the
      list for the flat key. */
  function AddValidator(validators: map<string, seq<Validator>>, keys: seq<string>, validator: Validator): (r: map<string, seq<Validator>>)
    ensures r.Keys == validators.Keys + {FlattenKeys(keys)}
    ensures forall k :: k in validators && k != FlattenKeys(keys) ==> r[k] == validators[k]
  {
    var key := FlattenKeys(keys);
    validators[key := (if key in validators then validators[key] else []) + [validator]]
  }

  /** `set_from_env(*keys, &block)`: the ENV name (the block's result, or
      else the flat key, through `to_env_key`) bound under the downcased
      flat key. */
  function BindEnv(st: ConfigState, keys: seq<string>, block: Option<string>): (r: map<string, string>)
    ensures r.Keys == st.envs.Keys + {Downcase(FlattenKeys(keys))}
  {
    var key := FlattenKeys(keys);
    st.envs[Downcase(key) := ToEnvKey(if block.Some? then block.value else key, st.envPrefix, st.envSeparator)]
  }

  // ---------------------------------------------------------------------
  // fetch

  /** With settings preferred, a non-nil tree value wins (false included),
      then the ENV variable, then the block, then the default. */
  lemma FetchSettingsFirst(st: ConfigState, env: Environ, keys: seq<string>, default: Value,
                           block: Option<Value>, prefer: string)
    requires NormalizePreferred(prefer) == Ok(Settings)
    requires DeepFetch(st.settings, FetchKeys(st.aliases, keys)).Ok?
    ensures var path := FetchKeys(st.aliases, keys);
      var found := DeepFetch(st.settings, path).value;
      var fromEnv := EnvValue(env, EnvKey(st, path));
      Fetched(st, env, keys, default, block, prefer) ==
        if !found.Nil? then Unwrap(found, st.validators)
        else if !fromEnv.Nil? then Ok(fromEnv)
        else Unwrap(if block.Some? then block.value else default, st.validators)
  {
  }

  /** With the environment preferred, the ENV variable wins, then the
      tree; the default and the block are never used. */
  lemma FetchEnvironmentFirst(st: ConfigState, env: Environ, keys: seq<string>, default: Value,
                              block: Option<Value>, default': Value, block': Option<Value>, prefer: string)
    requires NormalizePreferred(prefer) == Ok(Environment)
    ensures var path := FetchKeys(st.aliases, keys);
      var fromEnv := EnvValue(env, EnvKey(st, path));
      Fetched(st, env, keys, default, block, prefer) ==
        if !fromEnv.Nil? then Ok(fromEnv)
        else match DeepFetch(st.settings, path)
          case Err(e) => Err(e)
          case Ok(found) => Unwrap(found, st.validators)
    ensures Fetched(st, env, keys, default, block, prefer) == Fetched(st, env, keys, default', block', prefer)
  {
  }

  /** An unknown preference is refused before anything is read. */
  lemma FetchUnknownPreference(st: ConfigState, env: Environ, keys: seq<string>, default: Value,
                               block: Option<Value>, prefer: string)
    requires NormalizePreferred(prefer).Err?
    ensures Fetched(st, env, keys, default, block, prefer) ==
      Err(UnsupportedSource("Preferred Source `" + prefer + "` is not supported."))
  {
  }

  /** With autoload on, bindings made by `set_from_env` are ignored and
      the ENV name comes from the first segment alone. */
  lemma AutoloadIgnoresBindings(st: ConfigState, envs: map<string, string>, env: Environ, keys: seq<string>,
                                default: Value, block: Option<Value>, prefer: string)
    requires st.autoloadEnv
    ensures Fetched(st.(envs := envs), env, keys, default, block, prefer) == Fetched(st, env, keys, default, block, prefer)
    ensures var path := FetchKeys(st.aliases, keys);
      path != [] ==> EnvKey(st, path) == Some(ToEnvKey(path[0], st.envPrefix, st.envSeparator))
  {
    var path := FetchKeys(st.aliases, keys);
    assert EnvKey(st.(envs := envs), path) == EnvKey(st, path);
  }

  // ---------------------------------------------------------------------
  // set

  /** `set` refuses a missing or a doubled value, and then stores nothing. */
  lemma SetNeedsExactlyOne(st: ConfigState, keys: seq<string>, value: Value, block: Option<Value>)
    requires Descendable(st.settings, ConvertToKeys(keys))
    ensures value.Nil? && block.None? ==>
      SetOutcome(st, keys, value, block) == Err(ArgumentError("Need to set either value or block"))
    ensures !value.Nil? && block.Some? ==>
      SetOutcome(st, keys, value, block) == Err(ArgumentError("Can't set both value and block"))
  {
  }

  /** Setting a plain value under a path without validators stores it
      there, and fetching the same keys (settings preferred, no alias)
      gives it back. */
  lemma SetThenFetched(st: ConfigState, env: Environ, keys: seq<string>, value: Value,
                       default: Value, block: Option<Value>, prefer: string)
    requires Descendable(st.settings, ConvertToKeys(keys)) && ConvertToKeys(keys) != []
    requires FlattenKeys(ConvertToKeys(keys)) !in st.validators && FlattenKeys(keys) !in st.aliases
    requires !value.Nil? && !CallableWithoutParams(value)
    requires NormalizePreferred(prefer) == Ok(Settings)
    ensures SetOutcome(st, keys, value, None) == Ok(Stored(DeepSet(st.settings, ConvertToKeys(keys), value), value))
    ensures Fetched(st.(settings := SetOutcome(st, keys, value, None).value.settings), env, keys, default, block, prefer) == Ok(value)
  {
    SetThenFetch(st.settings, ConvertToKeys(keys), value);
  }

  /** With validators for the flat key, a plain value is checked by each
      validator in registration order, and the first failure aborts the
      store. */
  lemma SetValidatesFirst(st: ConfigState, keys: seq<string>, value: Value)
    requires Descendable(st.settings, ConvertToKeys(keys))
    requires FlattenKeys(ConvertToKeys(keys)) in st.validators
    requires !value.Nil? && !CallableWithoutParams(value)
    ensures var key := FlattenKeys(ConvertToKeys(keys));
      SetOutcome(st, keys, value, None) ==
        match FirstFailure(st.validators[key], key, value)
        case Some(e) => Err(e)
        case None => Ok(Stored(DeepSet(st.settings, ConvertToKeys(keys), value), value))
  {
  }

  /** With validators for the flat key, a block is stored wrapped; every
      fetch calls it and validates what it produced. */
  lemma SetBlockThenFetched(st: ConfigState, env: Environ, keys: seq<string>, result: Value, prefer: string)
    requires Descendable(st.settings, ConvertToKeys(keys)) && ConvertToKeys(keys) != []
    requires FlattenKeys(ConvertToKeys(keys)) in st.validators && FlattenKeys(keys) !in st.aliases
    requires !result.Nil? && !CallableWithoutParams(result)
    requires NormalizePreferred(prefer) == Ok(Settings)
    ensures var key := FlattenKeys(ConvertToKeys(keys));
      var r := SetOutcome(st, keys, Nil, Some(Proc(false, 0, result)));
      && r == Ok(Stored(DeepSet(st.settings, ConvertToKeys(keys), Validated(key, Proc(false, 0, result))),
                        Validated(key, Proc(false, 0, result))))
      && Fetched(st.(settings := r.value.settings), env, keys, Nil, None, prefer) ==
           match FirstFailure(st.validators[key], key, result)
           case Some(e) => Err(e)
           case None => Ok(result)
  {
    var key := FlattenKeys(ConvertToKeys(keys));
    var wrapped := Validated(key, Proc(false, 0, result));
    SetThenFetch(st.settings, ConvertToKeys(keys), wrapped);
    DelayedBlock(key, false, 0, result, st.validators);
  }

  /** Without validators for the flat key, a block (or any callable given
      as the value) is stored as it is, and every fetch calls it: a block
      of no parameters yields what it computes. */
  lemma SetCallableThenFetched(st: ConfigState, env: Environ, keys: seq<string>, given: Value, prefer: string)
    requires Descendable(st.settings, ConvertToKeys(keys)) && ConvertToKeys(keys) != []
    requires FlattenKeys(ConvertToKeys(keys)) !in st.validators && FlattenKeys(keys) !in st.aliases
    requires !given.Nil?
    requires NormalizePreferred(prefer) == Ok(Settings)
    ensures var r := SetOutcome(st, keys, Nil, Some(given));
      && r == Ok(Stored(DeepSet(st.settings, ConvertToKeys(keys), given), given))
      && Fetched(st.(settings := r.value.settings), env, keys, Nil, None, prefer) == Unwrap(given, st.validators)
    ensures given.Proc? && given.arity == 0 && !CallableWithoutParams(given.result) ==>
      Fetched(st.(settings := DeepSet(st.settings, ConvertToKeys(keys), given)), env, keys, Nil, None, prefer)
        == Ok(given.result)
  {
    SetThenFetch(st.settings, ConvertToKeys(keys), given);
  }

  /** `set_if_empty` leaves a non-nil value alone and returns nil; where
      `deep_fetch` finds nil it is `set`. */
  lemma SetIfEmptyKeeps(st: ConfigState, keys: seq<string>, value: Value, block: Option<Value>)
    requires DeepFetch(st.settings, ConvertToKeys(keys)).Ok?
    ensures var current := DeepFetch(st.settings, ConvertToKeys(keys)).value;
      !current.Nil? ==> SetIfEmptyOutcome(st, keys, value, block) == Ok(Stored(st.settings, Nil))
    ensures DeepFetch(st.settings, ConvertToKeys(keys)) == Ok(Nil) ==>
      Descendable(st.settings, ConvertToKeys(keys)) &&
      SetIfEmptyOutcome(st, keys, value, block) ==
        if block.Some? then SetOutcome(st, keys, Nil, block) else SetOutcome(st, keys, value, None)
  {
    if DeepFetch(st.settings, ConvertToKeys(keys)) == Ok(Nil) {
      NilFetchDescendable(st.settings, ConvertToKeys(keys));
      ConvertIdempotent(keys);
    }
  }

  // ---------------------------------------------------------------------
  // append and remove

  /** After `append`, fetching the key gives what it gave before, as an
      array, followed by the new values. */
  lemma AppendThenFetched(st: ConfigState, env: Environ, values: seq<Value>, to: seq<string>)
    requires Descendable(st.settings, ConvertToKeys(to)) && ConvertToKeys(to) != []
    requires FlattenKeys(ConvertToKeys(to)) !in st.validators && FlattenKeys(to) !in st.aliases
    requires st.preferred == Settings
    requires FetchPlain(st, env, to).Ok?
    ensures AppendOutcome(st, env, values, to).Ok?
    ensures FetchPlain(st.(settings := AppendOutcome(st, env, values, to).value.settings), env, to) ==
      Ok(Arr(ToArray(FetchPlain(st, env, to).value) + values))
  {
    SetThenFetched(st, env, to, Arr(ToArray(FetchPlain(st, env, to).value) + values), Nil, None, SourceName(Settings));
  }

  /** After `remove`, fetching the key gives what it gave before, as an
      array, without any occurrence of the removed values. */
  lemma RemoveThenFetched(st: ConfigState, env: Environ, values: seq<Value>, from: seq<string>)
    requires Descendable(st.settings, ConvertToKeys(from)) && ConvertToKeys(from) != []
    requires FlattenKeys(ConvertToKeys(from)) !in st.validators && FlattenKeys(from) !in st.aliases
    requires st.preferred == Settings
    requires FetchPlain(st, env, from).Ok?
    ensures RemoveOutcome(st, env, values, from).Ok?
    ensures var before := ToArray(FetchPlain(st, env, from).value);
      var after := FetchPlain(st.(settings := RemoveOutcome(st, env, values, from).value.settings), env, from);
      && after == Ok(Arr(Difference(before, values)))
      && forall x :: x in after.value.items <==> x in before && x !in values
  {
    SetThenFetched(st, env, from, Arr(Difference(ToArray(FetchPlain(st, env, from).value), values)), Nil, None, SourceName(Settings));
  }

  /** `remove` with no key fails. */
  lemma RemoveNeedsKey(st: ConfigState, env: Environ, values: seq<Value>)
    ensures RemoveOutcome(st, env, values, []) == Err(ArgumentError("Need to set key to remove from"))
  {
    DescendableEmpty([]);
  }

  // ---------------------------------------------------------------------
  // aliases

  /** An alias equal to the setting's own key is refused. */
  lemma AliasOfItself(st: ConfigState, env: Environ, keys: seq<string>, to: seq<Value>)
    requires KeyArgs(to) && FlattenKeys(KeyTexts(to)) == FlattenKeys(keys)
    ensures AliasOutcome(st, env, keys, to) == Err(ArgumentError("Alias matches setting key"))
  {
  }

  /** An alias is recorded exactly when it differs from the setting's key
      and fetching it gives nil or false; a truthy value already stored
      under the alias is refused with the inspected alias keys. */
  lemma AliasTaken(st: ConfigState, env: Environ, keys: seq<string>, to: seq<Value>)
    requires KeyArgs(to)
    ensures var aliasKey := FlattenKeys(KeyTexts(to));
      var existing := FetchPlain(st, env, [aliasKey]);
      && (AliasOutcome(st, env, keys, to).Ok? <==>
            aliasKey != FlattenKeys(keys) && existing.Ok? && !Truthy(existing.value))
      && (aliasKey != FlattenKeys(keys) && existing.Ok? && Truthy(existing.value) ==>
            AliasOutcome(st, env, keys, to) ==
              Err(ArgumentError("Setting already exists with an alias '" + Join(Inspected(to), ", ") + "'")))
  {
  }

  /** A recorded alias maps the flat alias key, which differs from the
      setting's flat key, to the setting's flat key. */
  lemma AliasRecords(st: ConfigState, env: Environ, keys: seq<string>, to: seq<Value>)
    requires KeyArgs(to) && AliasOutcome(st, env, keys, to).Ok?
    ensures FlattenKeys(KeyTexts(to)) != FlattenKeys(keys)
    ensures AliasOutcome(st, env, keys, to).value == st.aliases[FlattenKeys(KeyTexts(to)) := FlattenKeys(keys)]
  {
  }

  /** `fetch` depends on the alias table only through the segments it
      resolves the keys to. */
  lemma FetchedByPath(st: ConfigState, st': ConfigState, env: Environ, keys: seq<string>, keys': seq<string>,
                      default: Value, block: Option<Value>, prefer: string)
    requires st' == st.(aliases := st'.aliases)
    requires FetchKeys(st.aliases, keys) == FetchKeys(st'.aliases, keys')
    ensures Fetched(st, env, keys, default, block, prefer) == Fetched(st', env, keys', default, block, prefer)
  {
    var path := FetchKeys(st.aliases, keys);
    assert EnvKey(st, path) == EnvKey(st', path);
  }

  /** Once an alias is recorded, fetching the alias reads the setting's
      path, and the setting itself still fetches what it fetched. */
  lemma FetchThroughAlias(st: ConfigState, env: Environ, keys: seq<string>, to: seq<Value>,
                          default: Value, block: Option<Value>, prefer: string)
    requires KeyArgs(to) && PlainPath(keys) && FlattenKeys(keys) != ""
    requires FlattenKeys(keys) !in st.aliases
    requires AliasOutcome(st, env, keys, to).Ok?
    ensures var st' := st.(aliases := AliasOutcome(st, env, keys, to).value);
      && Fetched(st', env, [FlattenKeys(KeyTexts(to))], default, block, prefer) == Fetched(st', env, keys, default, block, prefer)
      && Fetched(st', env, keys, default, block, prefer) == Fetched(st, env, keys, default, block, prefer)
  {
    var aliasKey := FlattenKeys(KeyTexts(to));
    AliasRecords(st, env, keys, to);
    var st' := st.(aliases := AliasOutcome(st, env, keys, to).value);
    assert FlattenKeys([aliasKey]) == aliasKey;
    AliasTargetRoundTrip(keys);
    assert FetchKeys(st'.aliases, [aliasKey]) == keys;
    assert FetchKeys(st'.aliases, keys) == keys;
    assert FetchKeys(st.aliases, keys) == keys;
    FetchedByPath(st', st', env, [aliasKey], keys, default, block, prefer);
    FetchedByPath(st', st, env, keys, keys, default, block, prefer);
  }

  // ---------------------------------------------------------------------
  // validators and ENV bindings

  /** A validator added by `validate` runs after the ones already there:
      `assert_valid` fails with the earlier failure if there is one, and
      otherwise with the new validator's. */
  lemma ValidateRunsLast(validators: map<string, seq<Validator>>, keys: seq<string>, validator: Validator, value: Value)
    requires FlattenKeys(keys) in validators
    ensures var key := FlattenKeys(keys);
      var before := AssertValid(validators, key, value);
      AssertValid(AddValidator(validators, keys, validator), key, value) ==
        if before.Some? then before else validator(key, value)
  {
    FirstFailureAppend(validators[FlattenKeys(keys)], validator, FlattenKeys(keys), value);
  }

  /** After `set_from_env` for a lower-case plain path, fetching the path
      (settings preferred, autoload off, nothing in the tree) reads the
      bound ENV variable and falls back to the block or default. */
  lemma SetFromEnvThenFetched(st: ConfigState, env: Environ, keys: seq<string>, name: Option<string>,
                              default: Value, block: Option<Value>, prefer: string)
    requires PlainPath(keys) && Downcase(FlattenKeys(keys)) == FlattenKeys(keys)
    requires !st.autoloadEnv && FlattenKeys(keys) !in st.aliases
    requires NormalizePreferred(prefer) == Ok(Settings)
    requires DeepFetch(st.settings, keys) == Ok(Nil)
    ensures var envName := ToEnvKey(if name.Some? then name.value else FlattenKeys(keys), st.envPrefix, st.envSeparator);
      Fetched(st.(envs := BindEnv(st, keys, name)), env, keys, default, block, prefer) ==
        if envName in env then Ok(Str(env[envName]))
        else Unwrap(if block.Some? then block.value else default, st.validators)
  {
    var st' := st.(envs := BindEnv(st, keys, name));
    assert FetchKeys(st'.aliases, keys) == keys;
    assert EnvKey(st', keys) == Some(ToEnvKey(if name.Some? then name.value else FlattenKeys(keys), st.envPrefix, st.envSeparator));
  }
}
