# tty-config in Dafny

This project models the core of the Ruby gem tty-config:

- the `TTY::Config` settings engine. This covers the nested settings hash and its side tables of validators, environment bindings and aliases, key paths, and `set`, `set_if_empty`, `fetch`, `merge`, `append`, `remove`, `delete`, `alias_setting`, `validate`, `set_from_env` and `to_env_key`. It also covers the preferred source, the `deep_*` helpers, and the codec lookup behind `extname=`, `marshal` and `unmarshal`;
- the INI generator `TTY::Config::Generator`;
- the marshaller registry (`MarshallerRegistry`) and the `Marshallers` mixin that memoises it.

Modules:

| file | module | what it holds |
|---|---|---|
| `outcomes.dfy` | `Outcomes` | `Option`, `Result` and the errors the library raises |
| `ordered_maps.dfy` | `OrderedMaps` | a Ruby Hash as an insertion-ordered list of pairs: lookup, `[]=`, `delete` |
| `text.dfy` | `Text` | `join`, `split`, `gsub`, `upcase`/`downcase` and `to_s` of integers |
| `key_paths.dfy` | `KeyPaths` | `convert_to_keys` and `flatten_keys` |
| `values.dfy` | `Values` | the Ruby objects a setting can hold, `Kernel#Array` and `Array#-` |
| `value_tree.dfy` | `ValueTree` | `deep_fetch`, `deep_set`, `deep_merge`, `deep_delete` and `normalize_hash` |
| `tree_lemmas.dfy` | `TreeLemmas` | what those helpers guarantee |
| `deferred.dfy` | `Deferred` | validators, `assert_valid`, `delay_validation` and the unwrap loop of `fetch` |
| `env_names.dfy` | `EnvNames` | `normalize_preferred` and `to_env_key` |
| `config_spec.dfy` | `ConfigSpec` | each public operation as a function of the configuration's state, with the lemmas that relate them |
| `marshaller_registry.dfy` | `Codecs` | the `MarshallerRegistry` class |
| `config.dfy` | `Configuration` | the `Config` class: its fields, its state-changing methods and the `Marshallers` mixin |
| `generator.dfy` | `Generator` | the INI generator |

## Model

The `Config` class keeps Ruby's instance variables as fields. Its methods are proved against a specification function in one of three ways:

- `Set`, `SetIfEmpty`, `Append`, `Remove`, `AliasSetting`, `Validate`, `SetFromEnv` and `Fetch` are proved against the `ConfigSpec` function that computes the outcome from the old state.
- `SetPreferred` is proved against `NormalizePreferred`. `Merge` and `Delete` are proved against `DeepMerge` and `DeepDelete`.
- `AppendPath`, `PrependPath` and `AutoloadEnv` state their field update directly. `Register` and `Unregister` state the registry's new contents. `SetExtname` states the new `extname`.

The lemmas in `ConfigSpec` and `TreeLemmas` state what the library promises about those functions.

The environment (`ENV`) is a `map<string, string>` parameter. A block is given by its value. A block or lambda is a `Proc` value: its `lambda?` flag, its arity and the result it returns.

| member | source | states |
|---|---|---|
| `OrderedMaps.LookupFound` | lib/tty/config/marshaller_registry.rb:26-28 | `key?` succeeds exactly for the keys of the hash, and finds a pair of the hash |
| `OrderedMaps.LookupStore` | lib/tty/config/marshaller_registry.rb:30-32 | after `h[k] = v`, `k` gives `v` and every other key gives what it gave before |
| `OrderedMaps.StoreKeys` | lib/tty/config/marshaller_registry.rb:30-32 | `h[k] = v` keeps the key order; a new key goes to the end |
| `OrderedMaps.StoreUnique` | lib/tty/config/marshaller_registry.rb:30-32 | `h[k] = v` keeps the keys distinct |
| `OrderedMaps.StoreInPlace` | lib/tty/config/marshaller_registry.rb:30-32 | storing under a present key replaces its value at its own position |
| `OrderedMaps.StoreAppends` | lib/tty/config.rb:130-136 | storing under a new key appends the pair |
| `OrderedMaps.LookupRemove` | lib/tty/config/marshaller_registry.rb:34-36 | after `delete(k)`, `k` is absent and every other key keeps its value |
| `OrderedMaps.RemoveKeys` | lib/tty/config/marshaller_registry.rb:34-36 | `delete(k)` leaves the other keys in their order |
| `OrderedMaps.RemoveUnique` | lib/tty/config/marshaller_registry.rb:34-36 | `delete(k)` keeps the keys distinct |
| `Text.Split` | lib/tty/config.rb:313-314 | `String#split` on a character: no piece holds the character, and no trailing piece is empty |
| `Text.Gsub` | lib/tty/config.rb:287 | replacing a character by a text that lacks it leaves none, and adds only characters of the text or of the replacement |
| `Text.Upcase` | lib/tty/config.rb:287 | upcasing maps each character and keeps the length |
| `Text.Downcase` | lib/tty/config.rb:276 | downcasing maps each character and keeps the length |
| `Text.UpcaseIdempotent` | lib/tty/config.rb:287 | upcasing twice is upcasing once |
| `Text.UpcaseLetters` | lib/tty/config.rb:287 | an upper-cased text holds no lower-case letter, and every character other than an upper-case letter comes from the text |
| `Text.JoinFields` | lib/tty/config.rb:664-692 | joining the pieces of a text with the character it was cut at gives the text back |
| `Text.FieldsOfJoin` | lib/tty/config.rb:664-692 | cutting a join of pieces without the separator gives the pieces back |
| `Text.GsubIsJoinOfFields` | lib/tty/config.rb:287 | `gsub` of one character is cutting at it and joining with the replacement |
| `KeyPaths.ConvertToKeys` | lib/tty/config.rb:664-671 | a first key containing "." is split and decides the whole path, whose segments then hold no "."; otherwise the keys are kept as they are, the empty list included |
| `KeyPaths.FlattenKeys` | lib/tty/config.rb:685-692 | no keys flatten to ""; a first key containing "." is returned unchanged |
| `KeyPaths.DelimInJoin` | lib/tty/config.rb:685-692 | flattening two or more keys gives a text containing "." |
| `KeyPaths.FlattenConvertRoundTrip` | lib/tty/config.rb:664-692 | for non-empty segments without ".", `convert_to_keys([flatten_keys(s)]) == s` |
| `KeyPaths.ConvertIdempotent` | lib/tty/config.rb:664-671 | converting a converted path changes nothing |
| `KeyPaths.FlattenOfConverted` | lib/tty/config.rb:664-692 | flattening a split dotted key gives the dotted key back |
| `KeyPaths.SplitFlattenRoundTrip` | lib/tty/config.rb:664-692 | a dotted key split at "." flattens back to itself, and its pieces are already a converted path |
| `KeyPaths.AliasTargetRoundTrip` | lib/tty/config.rb:313-316 | the flat setting key an alias records splits and converts back to the setting's own path |
| `Values.ToArray` | lib/tty/config.rb:374-377 | `Array(x)`: nil is empty, an array is itself, a hash is its list of pairs, anything else a one-element array |
| `Values.CallableWithoutParams` | lib/tty/config.rb:587-590 | only Procs and validation wrappers respond to `call`; a Proc qualifies exactly when its arity is zero, a wrapper always |
| `Values.Difference` | lib/tty/config.rb:393-398 | `a - b` keeps exactly the elements of `a` not in `b`, and is no longer than `a` |
| `Values.DifferenceOfAppend` | lib/tty/config.rb:393-398 | `Array#-` keeps the order of what it keeps |
| `Values.DifferenceOfNothing` | lib/tty/config.rb:393-398 | removing nothing keeps the array |
| `ValueTree.DeepFetch` | lib/tty/config.rb:705-713 | fetching with no keys fails as `nil.to_sym` does, and only then |
| `ValueTree.DescendError` | lib/tty/config.rb:705-713 | descending into a stored lambda that cannot take one argument, or into a `delay_validation` wrapper, raises ArgumentError; any other Proc is called, ignores the argument and then lacks `fetch` |
| `ValueTree.IndifferentGet` | lib/tty/config.rb:705-713 | the value under the String key when that key is present, else the value under the Symbol key, else nil |
| `ValueTree.DeepSet` | lib/tty/config.rb:640-655 | a single segment holds the value afterwards, a longer path has a Hash at its first segment; the keys keep their order and only the first segment can be new |
| `ValueTree.DeepMerge` | lib/tty/config.rb:724-734 | the merged hash holds exactly the keys of both hashes |
| `ValueTree.MergeIntoKeys` | lib/tty/config.rb:724-734 | merging the first `n` pairs adds their keys and no others |
| `ValueTree.DeepDelete` | lib/tty/config.rb:747-757 | deleting never makes a hash longer, and a nil result means nothing was removed |
| `ValueTree.NormalizeUpTo` | lib/tty/config.rb:55-60 | the only failure is a key without `to_sym`; when the first `n` pairs normalise, each of their keys is a String or a Symbol |
| `ValueTree.NormalizeHash` | lib/tty/config.rb:55-60 | the only failure is `NoMethodError` for `to_sym`, and a hash that normalises has only keys that convert |
| `ValueTree.LookupPath` | lib/tty/config.rb:747-757 | a one-segment path is a plain `Hash#[]` on the String key |
| `ValueTree.ToSym` | lib/tty/config.rb:55-60 | `to_sym` succeeds exactly on Strings and Symbols, and gives a Symbol |
| `TreeLemmas.StoreWellFormed` | lib/tty/config.rb:237 | storing a well-formed value keeps a hash well formed (distinct keys at every level) |
| `TreeLemmas.RemoveWellFormed` | lib/tty/config.rb:753 | deleting a key keeps a hash well formed |
| `TreeLemmas.DescendableEmpty` | lib/tty/config.rb:640-655 | `deep_set` can descend any path in an empty hash |
| `TreeLemmas.NilFetchDescendable` | lib/tty/config.rb:255-260 | where `deep_fetch` finds nil, `deep_set` can descend, so `set_if_empty` never writes through a scalar |
| `TreeLemmas.SetThenFetch` | lib/tty/config.rb:640-655 | after creating the missing levels and storing `v`, `deep_fetch` of the same path gives `v` |
| `TreeLemmas.SameHeadSameFetch` | lib/tty/config.rb:705-713 | `deep_fetch` depends only on what the first segment finds, String key first, then Symbol |
| `TreeLemmas.FetchBelowProc` | lib/tty/config.rb:705-713 | fetching below a stored `-> { 2 }` raises "wrong number of arguments (given 1, expected 0)"; below a block, or a one-argument lambda, NoMethodError for `fetch` |
| `TreeLemmas.SetKeepsOthers` | lib/tty/config.rb:640-655 | storing at a path leaves every diverging path of a String-keyed tree as it was |
| `TreeLemmas.SetKeepsWellFormed` | lib/tty/config.rb:640-655 | storing keeps the tree well formed |
| `TreeLemmas.MergeIntoLookup` | lib/tty/config.rb:724-734 | merging the first `n` pairs of the right hash: keys among them get the combined value, others keep the left value |
| `TreeLemmas.MergeLookup` | lib/tty/config.rb:724-734 | in `deep_merge`, a key in both hashes whose values are both hashes is merged recursively; otherwise the right value wins; left-only keys stay |
| `TreeLemmas.MergeSelf` | lib/tty/config.rb:724-734 | merging a well-formed tree into itself pair by pair gives the tree |
| `TreeLemmas.MergeIdempotent` | lib/tty/config.rb:724-734 | `deep_merge(t, t) == t` |
| `TreeLemmas.DeleteFound` | lib/tty/config.rb:747-757 | deleting a stored non-nil value returns it (a whole subtree for a hash) and removes it from the tree |
| `TreeLemmas.DeleteKeepsParents` | lib/tty/config.rb:747-757 | deleting a stored value keeps every hash on the way to it, even an emptied one |
| `TreeLemmas.DeleteMissing` | lib/tty/config.rb:747-757 | a path that ends at a missing or nil value leaves the tree unchanged and returns nil or the default block's result for a segment |
| `TreeLemmas.StopAt` | lib/tty/config.rb:747-757 | the segment where the walk of `deep_delete` stops is one of the path's segments |
| `TreeLemmas.DeleteKeepsOthers` | lib/tty/config.rb:747-757 | deleting one path leaves every diverging path of a well-formed tree as it was |
| `TreeLemmas.SetThenDelete` | lib/tty/config.rb:747-757 | deleting what was just stored returns it |
| `TreeLemmas.NormalizeShape` | lib/tty/config.rb:55-60 | a normalized hash is Symbol-keyed and well formed at every level |
| `TreeLemmas.NormalizeSymbolKeyed` | lib/tty/config.rb:55-60 | normalizing a Symbol-keyed hash changes nothing |
| `TreeLemmas.NormalizeIdempotent` | lib/tty/config.rb:55-60 | normalizing twice is normalizing once |
| `TreeLemmas.NormalizeLookup` | lib/tty/config.rb:55-60 | a pair whose key no other key converts to the same Symbol is found under that Symbol, with a Hash value normalised and any other value unchanged |
| `TreeLemmas.NormalizeLookupAbsent` | lib/tty/config.rb:55-60 | a Symbol no key converts to is absent from the normalised hash |
| `Deferred.FirstFailure` | lib/tty/config.rb:619-623 | no error exactly when every validator accepts; otherwise the error of the first one that refuses, in registration order |
| `Deferred.AssertValid` | lib/tty/config.rb:619-623 | without validators for the key the call fails as `nil.each` does; otherwise it passes exactly when every validator accepts |
| `Deferred.FirstFailureAppend` | lib/tty/config.rb:456-461 | a validator added last runs only after all earlier ones accept |
| `Deferred.Invoke` | lib/tty/config.rb:340-342 | one call of a zero-arity callable gives a strictly smaller value; a plain block gives its result |
| `Deferred.Unwrap` | lib/tty/config.rb:340-342 | the loop ends at a value that is not callable, and leaves a non-callable value as it is |
| `Deferred.DelayedBlock` | lib/tty/config.rb:603-609 | calling a wrapped block gives its result when the validators accept it, and the first validator error otherwise |
| `Deferred.DelayValidation` | lib/tty/config.rb:603-609 | the wrapper is callable without parameters; its call succeeds exactly when the callback's does and the validators accept the value, and then gives that value |
| `EnvNames.NormalizePreferred` | lib/tty/config.rb:62-71 | exactly the five spellings of settings and the three of environment are accepted; anything else is UnsupportedSource with the source in the message |
| `EnvNames.NormalizeSourceName` | lib/tty/config.rb:107-109 | the stored preference normalizes to itself |
| `EnvNames.EnvKeyOfSegments` | lib/tty/config.rb:286-293 | without a prefix, the ENV name is the upper-cased segments joined by the separator; it holds no "." when the separator holds none, and no lower-case letter |
| `EnvNames.EnvKeyWithPrefix` | lib/tty/config.rb:286-293 | a non-empty prefix is upper-cased and put in front with one separator |
| `EnvNames.EnvKeyOfName` | lib/tty/config.rb:286-293 | an upper-case name without "." is used unchanged |
| `EnvNames.ToEnvKey` | lib/tty/config.rb:286-293 | the ENV name holds no "." when neither the prefix nor the separator does, and any lower-case letter in it comes from the separator |
| `ConfigSpec.FetchKeys` | lib/tty/config.rb:313-316 | a key without an alias is fetched at its own converted path |
| `ConfigSpec.EnvKey` | lib/tty/config.rb:317 | with autoload there is always an ENV name; otherwise there is one exactly when the flat key is bound |
| `ConfigSpec.EnvValue` | lib/tty/config.rb:324-331 | `ENV[name]` is nil exactly when there is no name or no such variable |
| `ConfigSpec.EitherValueOrBlock` | lib/tty/config.rb:574-580 | no error exactly when one of value and block is given |
| `ConfigSpec.AddValidator` | lib/tty/config.rb:456-461 | the flat key gains a validator list and the other keys keep theirs |
| `ConfigSpec.BindEnv` | lib/tty/config.rb:272-277 | binding adds exactly the downcased flat key |
| `ConfigSpec.Selected` | lib/tty/config.rb:311-338 | an unknown preference fails with its own error; with settings preferred, no block and a non-nil default, the value selected is never nil |
| `ConfigSpec.Fetched` | lib/tty/config.rb:311-344 | `fetch` never returns a callable, and fails with UnsupportedSource on an unknown preference |
| `ConfigSpec.SetOutcome` | lib/tty/config.rb:221-239 | neither or both of value and block is an ArgumentError; without validators `set` succeeds exactly when one is given; on success the stored value sits at the converted path |
| `ConfigSpec.SetIfEmptyOutcome` | lib/tty/config.rb:255-260 | a `deep_fetch` error propagates; the settings change, or a non-nil value is stored, only where `deep_fetch` found nil |
| `ConfigSpec.AppendOutcome` | lib/tty/config.rb:374-377 | on success an Array ending with the appended values is stored at the converted path |
| `ConfigSpec.RemoveOutcome` | lib/tty/config.rb:393-398 | success needs a key; an Array holding none of the removed values is stored at the converted path |
| `ConfigSpec.AliasOutcome` | lib/tty/config.rb:431-446 | an alias equal to the key fails; on success the alias table gains exactly the alias, mapped to the flat setting key, and keeps every other entry |
| `ConfigSpec.FetchSettingsFirst` | lib/tty/config.rb:311-344 | with settings preferred: the stored value unless nil (so false is returned), else the bound ENV variable, else the block or the default, unwrapped |
| `ConfigSpec.FetchEnvironmentFirst` | lib/tty/config.rb:311-344 | with environment preferred: the ENV variable, else the stored value; the default and the block do not matter |
| `ConfigSpec.FetchUnknownPreference` | lib/tty/config.rb:319-338 | an unknown preference raises UnsupportedSource |
| `ConfigSpec.AutoloadIgnoresBindings` | lib/tty/config.rb:317 | with autoload, stored bindings do not matter and the ENV name comes from the first segment |
| `ConfigSpec.SetNeedsExactlyOne` | lib/tty/config.rb:221-222 | neither or both of value and block fail with their exact messages |
| `ConfigSpec.SetThenFetched` | lib/tty/config.rb:221-239 | `set` of a non-nil, non-callable value without validators stores it at the converted path, and `fetch` then gives it |
| `ConfigSpec.SetValidatesFirst` | lib/tty/config.rb:221-239 | with validators, a plain value is stored only when all accept it; otherwise the first error is returned |
| `ConfigSpec.SetBlockThenFetched` | lib/tty/config.rb:221-239 | with validators, a zero-arity block is stored wrapped, and each `fetch` runs the validators on its result |
| `ConfigSpec.SetCallableThenFetched` | lib/tty/config.rb:221-239 | without validators, a block is stored as it is and every `fetch` unwraps it; a zero-arity block yields its result |
| `ConfigSpec.SetIfEmptyKeeps` | lib/tty/config.rb:255-260 | a non-nil value is kept and nil returned; at a nil value it is `set` with the block if given, else with the value |
| `ConfigSpec.AppendThenFetched` | lib/tty/config.rb:374-377 | after `append`, `fetch` gives `Array(old) + values` |
| `ConfigSpec.RemoveThenFetched` | lib/tty/config.rb:393-398 | after `remove`, `fetch` gives `Array(old) - values`: every occurrence of the values is gone and the rest kept |
| `ConfigSpec.RemoveNeedsKey` | lib/tty/config.rb:393-395 | `remove` with no key fails with "Need to set key to remove from" |
| `ConfigSpec.AliasOfItself` | lib/tty/config.rb:431-438 | an alias equal to the setting's flat key is refused |
| `ConfigSpec.AliasTaken` | lib/tty/config.rb:431-446 | an alias is recorded exactly when it differs from the key and fetches nil or false; a truthy value under it is refused with the inspected alias keys |
| `ConfigSpec.AliasRecords` | lib/tty/config.rb:445 | a recorded alias maps the flat alias key to the flat setting key |
| `ConfigSpec.FetchedByPath` | lib/tty/config.rb:311-344 | two fetches that resolve to the same path give the same result |
| `ConfigSpec.FetchThroughAlias` | lib/tty/config.rb:311-316 | after `alias_setting`, fetching the alias gives what the setting gives, and the setting still fetches as before |
| `ConfigSpec.ValidateRunsLast` | lib/tty/config.rb:456-461 | a new validator for a key runs after the existing ones |
| `ConfigSpec.SetFromEnvThenFetched` | lib/tty/config.rb:272-277 | after binding a lower-case key, `fetch` with settings preferred and nothing stored gives the ENV variable, else the block or default |
| `Codecs.ConcatExtsHas` | lib/tty/config/marshaller_registry.rb:22-24 | an extension is in `exts` exactly when some codec lists it |
| `Codecs.ConcatExtsAppend` | lib/tty/config/marshaller_registry.rb:22-24 | `exts` of more codecs is the earlier `exts` followed by the new ones, duplicates kept |
| `Codecs.ConcatExts` | lib/tty/config/marshaller_registry.rb:22-24 | the extensions of the first registered codec come first |
| `Codecs.Removed` | lib/tty/config/marshallers.rb:30-32 | `unregister(*names)` returns one result per name |
| `Codecs.LookupRemoveAll` | lib/tty/config/marshallers.rb:30-32 | after removing a list of names exactly those names are gone |
| `Codecs.RemovedDistinct` | lib/tty/config/marshallers.rb:30-32 | with distinct names, each result is the codec the name had before, or nil |
| `Codecs.MarshallerRegistry.constructor` | lib/tty/config/marshaller_registry.rb:10-12 | the registry holds the given mappings |
| `Codecs.MarshallerRegistry.Names` | lib/tty/config/marshaller_registry.rb:14-16 | the names in registration order |
| `Codecs.MarshallerRegistry.Objects` | lib/tty/config/marshaller_registry.rb:18-20 | the codecs, index by index with `names` |
| `Codecs.MarshallerRegistry.Exts` | lib/tty/config/marshaller_registry.rb:22-24 | the loop computes the concatenation of every codec's `ext`, in order |
| `Codecs.MarshallerRegistry.IsRegistered` | lib/tty/config/marshaller_registry.rb:26-28 | true exactly for a registered name or a registered codec |
| `Codecs.MarshallerRegistry.Register` | lib/tty/config/marshaller_registry.rb:30-32 | a new name goes to the end; a known name keeps its place and gets the new codec; other names are untouched |
| `Codecs.MarshallerRegistry.Unregister` | lib/tty/config/marshaller_registry.rb:34-36 | returns the removed codec or nil, and keeps the other names in order |
| `Codecs.MarshallerRegistry.Get` | lib/tty/config/marshaller_registry.rb:38-40 | the codec of a registered name; KeyError for any other |
| `Codecs.EmptyRegistry` | lib/tty/config/marshaller_registry.rb:10-12 | an empty registry has no names, codecs or extensions |
| `Configuration.FindCodec` | lib/tty/config.rb:852-858 | the first codec in registration order that lists the extension, or none when no codec lists it |
| `Configuration.FindCodecListed` | lib/tty/config.rb:146-152 | a codec is found exactly for the listed extensions; `""` is the one accepted extension without a codec |
| `Configuration.Config.constructor` | lib/tty/config.rb:116-139 | the initial fields, and the seven codecs registered in order |
| `Configuration.Config.SetPreferred` | lib/tty/config.rb:107-109 | stores the normalized source, or fails and keeps it |
| `Configuration.Config.AppendPath` | lib/tty/config.rb:165-167 | the path goes to the end of the search paths |
| `Configuration.Config.PrependPath` | lib/tty/config.rb:180-182 | the path goes to the front of the search paths |
| `Configuration.Config.AutoloadEnv` | lib/tty/config.rb:196-198 | turns autoloading on |
| `Configuration.Config.Set` | lib/tty/config.rb:221-239 | the settings become those of `SetOutcome`; on error they are unchanged |
| `Configuration.Config.SetIfEmpty` | lib/tty/config.rb:255-260 | the settings become those of `SetIfEmptyOutcome`; on error they are unchanged |
| `Configuration.Config.Append` | lib/tty/config.rb:374-377 | the settings become those of `AppendOutcome`; on error they are unchanged |
| `Configuration.Config.Remove` | lib/tty/config.rb:393-398 | the settings become those of `RemoveOutcome`; on error they are unchanged |
| `Configuration.Config.Fetch` | lib/tty/config.rb:311-344 | the unwrap loop returns the selected value fully unwrapped, never callable, and changes nothing |
| `Configuration.Config.Merge` | lib/tty/config.rb:354-358 | a hash is deep-merged in and the settings returned; anything else returns nil and changes nothing |
| `Configuration.Config.Delete` | lib/tty/config.rb:417-420 | the settings and result of `deep_delete` at the converted path |
| `Configuration.Config.AliasSetting` | lib/tty/config.rb:431-446 | records the alias or fails and keeps the aliases |
| `Configuration.Config.Validate` | lib/tty/config.rb:456-461 | appends the validator to the flat key's list and returns the list |
| `Configuration.Config.SetFromEnv` | lib/tty/config.rb:272-277 | binds the downcased flat key and returns the ENV name of the key, or of the block's name |
| `Configuration.Config.Registry` | lib/tty/config/marshallers.rb:10-12 | the registry is created on first use and the same one is returned afterwards |
| `Configuration.Config.Marshallers` | lib/tty/config/marshallers.rb:14-16 | the registry's codecs, registry unchanged |
| `Configuration.Config.Extensions` | lib/tty/config/marshallers.rb:18-20 | the registry's `exts` followed by one `""`, registry unchanged |
| `Configuration.Config.IsRegistered` | lib/tty/config/marshallers.rb:22-24 | forwards `registered?` |
| `Configuration.Config.Register` | lib/tty/config/marshallers.rb:26-28 | forwards `register` |
| `Configuration.Config.Unregister` | lib/tty/config/marshallers.rb:30-32 | the loop removes each name in turn and collects what each removal returns |
| `Configuration.Config.CreateMarshaller` | lib/tty/config.rb:852-858 | the first codec listing the extension, or none |
| `Configuration.Config.SetExtname` | lib/tty/config.rb:146-152 | accepts exactly the names in `extensions`; otherwise UnsupportedExtError and `extname` unchanged |
| `Configuration.Config.Marshal` | lib/tty/config.rb:885-892 | encodes with the first matching codec, or WriteError naming the extension |
| `Configuration.Config.Unmarshal` | lib/tty/config.rb:868-875 | decodes with the first matching codec, or ReadError naming the extension |
| `Generator.KeyLeTotal` | lib/tty/config/generator.rb:46 | two String, two Symbol or two Integer keys are always ordered one way or the other |
| `Generator.KeyLeTrans` | lib/tty/config/generator.rb:46 | the key order is transitive |
| `Generator.SortByKey` | lib/tty/config/generator.rb:46 | sorting keeps the number of pairs |
| `Generator.SortSorted` | lib/tty/config/generator.rb:46 | `data.sort` of comparable keys is in key order and a permutation of the pairs |
| `Generator.IsSection` | lib/tty/config/generator.rb:61-64 | only a Hash or an Array is a section, and an empty Array is one |
| `Generator.Pick` | lib/tty/config/generator.rb:46-47 | the pairs picked are all sections (or all values) and come from the input |
| `Generator.PickSplits` | lib/tty/config/generator.rb:46-47 | the sections and the values together are the input pairs |
| `Generator.Group` | lib/tty/config/generator.rb:44-49 | fails exactly when two or more keys cannot be compared; otherwise every section pair is a section, every value pair is not, and together they are the input pairs |
| `Generator.GroupPartitions` | lib/tty/config/generator.rb:44-64 | grouping succeeds on comparable keys; sections (a Hash, or an Array of hashes only) and values are each in key order, and together the input pairs |
| `Generator.GroupRejectsMixedKeys` | lib/tty/config/generator.rb:46 | two keys of different kinds make `sort` fail with ArgumentError |
| `Generator.GeneratePair` | lib/tty/config/generator.rb:100-103 | the key, the separator and the value with one space on each side of the separator |
| `Generator.GenerateValues` | lib/tty/config/generator.rb:78-84 | at most one line per pair; no lines exactly when every value is nil |
| `Generator.ValueLines` | lib/tty/config/generator.rb:78-84 | one line per non-nil pair, in the pairs' own order |
| `Generator.FalseIsWritten` | lib/tty/config/generator.rb:78-84 | a false value is written out as `false` |
| `Generator.ArrayFields` | lib/tty/config/generator.rb:100-103 | an Array of strings is joined by "," with no spaces, so splitting at "," gives the strings back |
| `Generator.ToS` | lib/tty/config/generator.rb:100-102 | false is written as "false", an empty Array as "", and a one-element Array as its element |
| `Generator.MergeEntries` | lib/tty/config/generator.rb:122 | `merge` keeps the keys distinct and holds exactly the keys of both hashes |
| `Generator.MergeAll` | lib/tty/config/generator.rb:122 | `reduce({}, :merge)` has distinct keys, exactly the keys of the hashes in the list |
| `Generator.LookupMergeEntries` | lib/tty/config/generator.rb:122 | merging a hash: its keys get its values, other keys keep theirs |
| `Generator.MergeAllLastWins` | lib/tty/config/generator.rb:122 | an Array-of-hashes section gives each key the value of the last hash holding it |
| `Generator.SectionLines` | lib/tty/config/generator.rb:117-126 | an empty section renders nothing; another renders its header first and a blank line last |
| `Generator.GenerateSections` | lib/tty/config/generator.rb:117-126 | no lines exactly when every section is empty; otherwise at least two |
| `Generator.Generate` | lib/tty/config/generator.rb:24-33 | fails exactly when `sort` fails; an empty hash generates "" |
| `Generator.GenerateLayout` | lib/tty/config/generator.rb:24-33 | values first, then a blank line only if some value was rendered, then the sections; nothing rendered gives "" |

## Left out

- File I/O is not modelled: `find_file`, `search_in_path`, `exist?`/`persisted?`, `read`, `write`, `check_can_write`, `create_missing_dirs`, `set_file_metadata`, `fullpath` and `to_hash`. They depend on the filesystem and the working directory.
- The concrete codecs (YAML, JSON, TOML, INI, XML, HCL, Java properties) are not modelled. A codec is its format name and extension list. `marshal` and `unmarshal` take the encoder and decoder as function parameters. Loading a codec's library (`dependency_loader.rb`, `marshaller.rb`, `marshallers/abstract.rb`) is not part of this model.
- `ENV` is a map parameter of `fetch`; the process environment itself is not read.
- A Ruby `Proc` is its `lambda?` flag, its arity and the value its call returns. That value does not depend on the arguments, and side effects are not modelled. A Proc of non-zero arity is stored and returned without being called, as in Ruby. `set_from_env`'s block is given by the name it returns.
- `ValueTree.DescendError`: for a lambda with optional parameters and no rest parameter that needs two or more arguments, Ruby's message reads `expected r..m`; the arity alone gives `expected r+`.
- `Configuration.Config.Set`: requires that every level above the last segment is missing, nil or a Hash. For any other object, Ruby would call that object's own `[]=`, which this model does not know.
- `Configuration.Config.Append`: has the same precondition as `Set`, for the same reason.
- `Configuration.Config.Remove`: has the same precondition as `Set`, for the same reason.
- `ConfigSpec.SetOutcome`: requires `Descendable`, the precondition of `Config.Set`. Writing through a stored scalar, which Ruby sends to that object's own `[]=`, is not modelled.
- `ConfigSpec.AppendOutcome`: requires `Descendable`, for the same reason as `SetOutcome`.
- `ConfigSpec.RemoveOutcome`: requires `Descendable`, for the same reason as `SetOutcome`.
- The settings tree is a value. In-place mutation of nested hashes, and aliasing of hashes shared with the caller, are not modelled. A hash passed to `merge` or to the constructor is copied, not shared.
- Key arguments are Strings. A Symbol without "." is taken by its name. A Symbol first key containing "." is not modelled: `convert_to_keys` calls `split` on it and raises NoMethodError, and `flatten_keys` returns the Symbol itself. Stored hash keys keep the String/Symbol distinction that `deep_fetch` depends on.
- `inspect` of Strings and Symbols does not escape special characters. The generator is given `inspect` for hashes and callables as a parameter.
- Hash equality is the equality of insertion-ordered pair lists. Ruby compares hashes without regard to order.
- Case mapping covers ASCII letters only.
- `normalize_hash` is modelled with `:to_sym` only. `coerce` and the block that `initialize` yields to are not modelled.
- The key delimiter is fixed at ".". `env_prefix=`, `env_separator=` and `filename=` are plain field writes and have no methods.
- The generator's key order covers String, Symbol and Integer keys. Other keys are treated as incomparable with everything. Ruby can order some of them, such as Arrays with Arrays.
- `deep_fetch` through a value that is neither nil nor a Hash is an error. For an Integer value, Ruby's `Integer#[]` with a Symbol raises the TypeError that `DescendError` returns; bit access with an Integer argument is not reachable, since segments are Strings.
- `register_marshaller`, which `initialize` calls, is treated as `register`.
- A registry name is a Symbol in Ruby (`:yaml`) and is modelled by its name as a `string`. So `registered?("yaml")`, which is false in Ruby, is true in the model.
- `EnvNames.ToEnvKey`: Ruby's `gsub` with a String replacement interprets `\0`, `\&`, `\\` and `\k<..>` in `env_separator`. `Text.Gsub` inserts the separator literally, so separators holding a backslash are not modelled.
- `Generator.ToS`: renders an Array key as its elements joined by ",". Ruby's `to_s` of an Array used as a key is its `inspect` form.
- `fetch` reads the binding of the flat key without downcasing it, while `set_from_env` stores it downcased. `ConfigSpec.SetFromEnvThenFetched` therefore requires a lower-case key.
