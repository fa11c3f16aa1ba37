/** The configuration object. Its settings tree, validators, ENV bindings,
    aliases and options are fields that its methods update in place; the
    marshaller mixin keeps a lazily created registry of codecs. What each
    settings operation computes is given by the functions of `ConfigSpec`. */
module Configuration {
  import opened Outcomes
  import opened OrderedMaps
  import opened Text
  import opened KeyPaths
  import opened Values
  import opened ValueTree
  import opened Deferred
  import opened EnvNames
  import opened ConfigSpec
  import opened Codecs

  /** `Marshallers::NO_EXT`, the extension of a file without one. */
  const NoExt := ""

  /** The codecs a new configuration registers, in order. */
  const DefaultCodecs: seq<(string, Codec)> := [
    ("yaml", Codec("yaml", [".yaml", ".yml"])),
    ("json", Codec("json", [".json"])),
    ("toml", Codec("toml", [".toml"])),
    ("ini", Codec("ini", [".ini", ".cnf", ".conf", ".cfg", ".cf"])),
    ("xml", Codec("xml", [".xml"])),
    ("hcl", Codec("hcl", [".hcl"])),
    ("jprops", Codec("jprops", [".properties", ".props", ".prop"]))]

  /** `create_marshaller(ext)`: the first codec, in registration order,
      whose extensions include `ext`. */
  function FindCodec(objects: seq<Codec>, ext: string): (r: Option<Codec>)
    ensures r.None? <==> forall i :: 0 <= i < |objects| ==> ext !in objects[i].ext
    ensures r.Some? ==> exists i :: (0 <= i < |objects| && objects[i] == r.value && ext in r.value.ext &&
      forall j :: 0 <= j < i ==> ext !in objects[j].ext)
  {
    if objects == [] then None
    else if ext in objects[0].ext then Some(objects[0])
    else
      var rest := FindCodec(objects[1..], ext);
      assert rest.Some? ==> exists i :: (0 <= i < |objects| && objects[i] == rest.value && ext in rest.value.ext &&
        forall j :: 0 <= j < i ==> ext !in objects[j].ext) by {
        if rest.Some? {
          var i :| 0 <= i < |objects| - 1 && objects[1..][i] == rest.value && ext in rest.value.ext &&
            forall j :: 0 <= j < i ==> ext !in objects[1..][j].ext;
          assert objects[i + 1] == rest.value;
          forall j | 0 <= j < i + 1 ensures ext !in objects[j].ext {
            if j > 0 { assert objects[j] == objects[1..][j - 1]; }
          }
        }
      }
      assert rest.None? ==> forall i :: 0 <= i < |objects| ==> ext !in objects[i].ext by {
        if rest.None? {
          forall i | 0 <= i < |objects| ensures ext !in objects[i].ext {
            if i > 0 { assert objects[i] == objects[1..][i - 1]; }
          }
        }
      }
      rest
  }

  /** A codec is found for exactly the extensions the registry lists, so
      every extension `extname=` accepts reaches a codec, except `NO_EXT`
      when no codec lists it. */
  lemma FindCodecListed(objects: seq<Codec>, ext: string)
    ensures FindCodec(objects, ext).Some? <==> ext in ConcatExts(objects)
    ensures ext in ConcatExts(objects) + [NoExt] && FindCodec(objects, ext).None? <==> ext == NoExt && NoExt !in ConcatExts(objects)
  {
    ConcatExtsHas(objects, ext);
  }

  class Config {
    var settings: seq<(Value, Value)>
    var locationPaths: seq<string>
    var validators: map<string, seq<Validator>>
    var filename: string
    var extname: string
    var envs: map<string, string>
    var envPrefix: string
    var envSeparator: string
    var autoloadEnv: bool
    var aliases: map<string, string>
    var preferred: Source
    /** `@marshaller_registry`, created on first use. */
    var marshallerRegistry: MarshallerRegistry?

    ghost predicate Valid()
      reads this, marshallerRegistry
    {
      marshallerRegistry != null ==> marshallerRegistry.Valid()
    }

    /** The state the settings operations read and write. */
    function State(): ConfigState
      reads this
    {
      ConfigState(settings, validators, envs, aliases, envPrefix, envSeparator, autoloadEnv, preferred)
    }

    /** The registered codecs; a registry not yet created has none. */
    function Registered(): seq<(string, Codec)>
      reads this, marshallerRegistry
    {
      if marshallerRegistry == null then [] else marshallerRegistry.marshallers
    }

    /** The registered codecs without their names. */
    function Objects(): seq<Codec>
      reads this, marshallerRegistry
    {
      OrderedMaps.Values(Registered())
    }

    /** `Config.new(settings)`: default options and the seven codecs
      registered in order. */
    constructor (initial: seq<(Value, Value)>)
      ensures Valid() && State() == ConfigState(initial, map[], map[], map[], "", "_", false, Settings)
      ensures locationPaths == [] && filename == "config" && extname == ".yml"
      ensures Registered() == DefaultCodecs && fresh(marshallerRegistry)
    {
      settings := initial;
      locationPaths := [];
      validators := map[];
      filename := "config";
      extname := ".yml";
      envs := map[];
      envPrefix := "";
      envSeparator := "_";
      autoloadEnv := false;
      aliases := map[];
      preferred := Settings;
      var reg := new MarshallerRegistry([]);
      var i := 0;
      while i < |DefaultCodecs|
        invariant 0 <= i <= |DefaultCodecs|
        invariant reg.Valid() && reg.marshallers == DefaultCodecs[..i]
      {
        assert DefaultCodecs[i].0 !in Keys(DefaultCodecs[..i]);
        StoreAppends(reg.marshallers, DefaultCodecs[i].0, DefaultCodecs[i].1);
        assert DefaultCodecs[..i] + [DefaultCodecs[i]] == DefaultCodecs[..i + 1];
        var _ := reg.Register(DefaultCodecs[i].0, DefaultCodecs[i].1);
        i := i + 1;
      }
      marshallerRegistry := reg;
    }

    /** `preferred=(source)` */
    method SetPreferred(source: string) returns (r: Result<Source>)
      modifies this`preferred
      ensures r == NormalizePreferred(source)
      ensures preferred == if r.Ok? then r.value else old(preferred)
    {
      r := NormalizePreferred(source);
      if r.Ok? {
        preferred := r.value;
      }
    }

    /** `append_path(path)` */
    method AppendPath(path: string) returns (r: seq<string>)
      modifies this`locationPaths
      ensures locationPaths == old(locationPaths) + [path] && r == locationPaths
    {
      locationPaths := locationPaths + [path];
      r := locationPaths;
    }

    /** `prepend_path(path)` */
    method PrependPath(path: string) returns (r: seq<string>)
      modifies this`locationPaths
      ensures locationPaths == [path] + old(locationPaths) && r == locationPaths
    {
      locationPaths := [path] + locationPaths;
      r := locationPaths;
    }

    /** `autoload_env` */
    method AutoloadEnv()
      modifies this`autoloadEnv
      ensures autoloadEnv
    {
      autoloadEnv := true;
    }

    /** Stores the outcome of a settings update, or leaves the settings as
      they were when it failed. */
    method Commit(o: Result<Stored>) returns (r: Result<Value>)
      modifies this`settings
      ensures o.Ok? ==> settings == o.value.settings && r == Ok(o.value.value)
      ensures o.Err? ==> settings == old(settings) && r == Err(o.error)
    {
      if o.Err? {
        return Err(o.error);
      }
      settings := o.value.settings;
      r := Ok(o.value.value);
    }

    /** `set(*keys, value:, &block)` */
    method Set(keys: seq<string>, value: Value, block: Option<Value>) returns (r: Result<Value>)
      requires Descendable(settings, ConvertToKeys(keys))
      modifies this`settings
      ensures var o := SetOutcome(old(State()), keys, value, block);
        && (o.Ok? ==> settings == o.value.settings && r == Ok(o.value.value))
        && (o.Err? ==> settings == old(settings) && r == Err(o.error))
    {
      r := Commit(SetOutcome(State(), keys, value, block));
    }

    /** `set_if_empty(*keys, value:, &block)` */
    method SetIfEmpty(keys: seq<string>, value: Value, block: Option<Value>) returns (r: Result<Value>)
      modifies this`settings
      ensures var o := SetIfEmptyOutcome(old(State()), keys, value, block);
        && (o.Ok? ==> settings == o.value.settings && r == Ok(o.value.value))
        && (o.Err? ==> settings == old(settings) && r == Err(o.error))
    {
      r := Commit(SetIfEmptyOutcome(State(), keys, value, block));
    }

    /** `append(*values, to:)` */
    method Append(env: Environ, values: seq<Value>, to: seq<string>) returns (r: Result<Value>)
      requires Descendable(settings, ConvertToKeys(to))
      modifies this`settings
      ensures var o := AppendOutcome(old(State()), env, values, to);
        && (o.Ok? ==> settings == o.value.settings && r == Ok(o.value.value))
        && (o.Err? ==> settings == old(settings) && r == Err(o.error))
    {
      r := Commit(AppendOutcome(State(), env, values, to));
    }

    /** `remove(*values, from:)` */
    method Remove(env: Environ, values: seq<Value>, from: seq<string>) returns (r: Result<Value>)
      requires Descendable(settings, ConvertToKeys(from))
      modifies this`settings
      ensures var o := RemoveOutcome(old(State()), env, values, from);
        && (o.Ok? ==> settings == o.value.settings && r == Ok(o.value.value))
        && (o.Err? ==> settings == old(settings) && r == Err(o.error))
    {
      r := Commit(RemoveOutcome(State(), env, values, from));
    }

    /** `fetch(*keys, default:, prefer:, &block)`: select a value, then
      call it while it is a callable without parameters. Nothing is
      written back. */
    method Fetch(env: Environ, keys: seq<string>, default: Value, block: Option<Value>, prefer: Option<string>)
      returns (r: Result<Value>)
      ensures r == Fetched(State(), env, keys, default, block, if prefer.Some? then prefer.value else SourceName(preferred))
      ensures r.Ok? ==> !CallableWithoutParams(r.value)
    {
      var source := if prefer.Some? then prefer.value else SourceName(preferred);
      var selected := Selected(State(), env, keys, default, block, source);
      if selected.Err? {
        return Err(selected.error);
      }
      var value := selected.value;
      while CallableWithoutParams(value)
        invariant Unwrap(value, validators) == Unwrap(selected.value, validators)
        decreases value
      {
        var next := Invoke(value, validators);
        if next.Err? {
          return Err(next.error);
        }
        value := next.value;
      }
      r := Ok(value);
    }

    /** `merge(other_settings)`: only a Hash is merged in. */
    method Merge(other: Value) returns (r: Value)
      modifies this`settings
      ensures other.Hash? ==> settings == DeepMerge(old(settings), other.entries) && r == Hash(settings)
      ensures !other.Hash? ==> settings == old(settings) && r == Nil
    {
      if !other.Hash? {
        return Nil;
      }
      settings := DeepMerge(settings, other.entries);
      r := Hash(settings);
    }

    /** `delete(*keys, &default)` */
    method Delete(keys: seq<string>, default: Option<Value -> Value>) returns (r: Value)
      modifies this`settings
      ensures var d := DeepDelete(old(settings), ConvertToKeys(keys), default);
        settings == d.settings && r == d.result
    {
      var d := DeepDelete(settings, ConvertToKeys(keys), default);
      settings := d.settings;
      r := d.result;
    }

    /** `alias_setting(*keys, to:)` */
    method AliasSetting(env: Environ, keys: seq<string>, to: seq<Value>) returns (r: Result<string>)
      requires KeyArgs(to)
      modifies this`aliases
      ensures var o := AliasOutcome(old(State()), env, keys, to);
        && (o.Ok? ==> aliases == o.value && r == Ok(FlattenKeys(keys)))
        && (o.Err? ==> aliases == old(aliases) && r == Err(o.error))
    {
      var o := AliasOutcome(State(), env, keys, to);
      if o.Err? {
        return Err(o.error);
      }
      aliases := o.value;
      r := Ok(FlattenKeys(keys));
    }

    /** `validate(*keys, &validator)` */
    method Validate(keys: seq<string>, validator: Validator) returns (r: seq<Validator>)
      modifies this`validators
      ensures validators == AddValidator(old(validators), keys, validator)
      ensures r == validators[FlattenKeys(keys)]
    {
      validators := AddValidator(validators, keys, validator);
      r := validators[FlattenKeys(keys)];
    }

    /** `set_from_env(*keys, &block)`; the block is given by what it returns. */
    method SetFromEnv(keys: seq<string>, block: Option<string>) returns (r: string)
      modifies this`envs
      ensures envs == BindEnv(old(State()), keys, block)
      ensures r == ToEnvKey(if block.Some? then block.value else FlattenKeys(keys), envPrefix, envSeparator)
    {
      envs := BindEnv(State(), keys, block);
      r := envs[Downcase(FlattenKeys(keys))];
    }

    // -------------------------------------------------------------------
    // The marshaller mixin

    /** `marshaller_registry`: created empty on first use, the same
      registry afterwards. */
    method Registry() returns (reg: MarshallerRegistry)
      requires Valid()
      modifies this`marshallerRegistry
      ensures Valid() && marshallerRegistry == reg && Registered() == old(Registered())
      ensures old(marshallerRegistry) != null ==> reg == old(marshallerRegistry)
      ensures old(marshallerRegistry) == null ==> fresh(reg)
    {
      if marshallerRegistry == null {
        marshallerRegistry := new MarshallerRegistry([]);
      }
      reg := marshallerRegistry;
    }

    /** `marshallers`: the registered codecs, in order. */
    method Marshallers() returns (r: seq<Codec>)
      requires Valid()
      modifies this`marshallerRegistry
      ensures Valid() && Registered() == old(Registered())
      ensures r == Objects()
    {
      var reg := Registry();
      r := reg.Objects();
    }

    /** `extensions`: every codec's extensions, then `NO_EXT`. */
    method Extensions() returns (r: seq<string>)
      requires Valid()
      modifies this`marshallerRegistry
      ensures Valid() && Registered() == old(Registered())
      ensures r == ConcatExts(Objects()) + [NoExt]
    {
      var reg := Registry();
      var exts := reg.Exts();
      r := exts + [NoExt];
    }

    /** `registered?(name_or_object)` */
    method IsRegistered(x: NameOrObject) returns (r: bool)
      requires Valid()
      modifies this`marshallerRegistry
      ensures Valid() && Registered() == old(Registered())
      ensures r <==> (x.Name? && x.name in Keys(Registered())) || (x.Object? && x.codec in Objects())
    {
      var reg := Registry();
      r := reg.IsRegistered(x);
    }

    /** `register(name, object)` */
    method Register(name: string, codec: Codec) returns (r: Codec)
      requires Valid()
      modifies this`marshallerRegistry, marshallerRegistry
      ensures Valid() && Registered() == Store(old(Registered()), name, codec) && r == codec
    {
      var reg := Registry();
      r := reg.Register(name, codec);
    }

    /** `unregister(*names)`: each name in turn; the codecs removed, nil
      for a name not registered at that point. */
    method Unregister(names: seq<string>) returns (r: seq<Option<Codec>>)
      requires Valid()
      modifies this`marshallerRegistry, marshallerRegistry
      ensures Valid()
      ensures Registered() == RemoveAll(old(Registered()), names)
      ensures r == Removed(old(Registered()), names)
    {
      var reg := Registry();
      ghost var start := reg.marshallers;
      assert start == old(Registered());
      r := [];
      var i := 0;
      while i < |names|
        invariant 0 <= i <= |names|
        invariant marshallerRegistry == reg && reg.Valid()
        invariant reg.marshallers == RemoveAll(start, names[..i])
        invariant r == Removed(start, names[..i])
      {
        ghost var before := reg.marshallers;
        assert names[..i + 1][..i] == names[..i];
        var removed := reg.Unregister(names[i]);
        assert reg.marshallers == OrderedMaps.Remove(before, names[i]) == RemoveAll(start, names[..i + 1]);
        assert removed == Lookup(before, names[i]);
        r := r + [removed];
        i := i + 1;
      }
      assert names[..i] == names;
    }

    /** `create_marshaller(ext)` */
    method CreateMarshaller(ext: string) returns (r: Option<Codec>)
      requires Valid()
      modifies this`marshallerRegistry
      ensures Valid() && Registered() == old(Registered())
      ensures r == FindCodec(Objects(), ext)
    {
      var objects := Marshallers();
      r := FindCodec(objects, ext);
    }

    /** `extname=(name)`: only a listed extension, or `NO_EXT`. */
    method SetExtname(name: string) returns (r: Result<string>)
      requires Valid()
      modifies this`extname, this`marshallerRegistry
      ensures Valid() && Registered() == old(Registered())
      ensures r.Ok? <==> name in ConcatExts(Objects()) + [NoExt]
      ensures r.Ok? ==> r.value == name && extname == name
      ensures r.Err? ==> (r.error == UnsupportedExtError("Config file format `" + name + "` is not supported.") &&
        extname == old(extname))
    {
      var exts := Extensions();
      if name !in exts {
        return Err(UnsupportedExtError("Config file format `" + name + "` is not supported."));
      }
      extname := name;
      r := Ok(name);
    }

    /** `marshal(object, ext:)` of `data`, with the codec's writer given as `encode`. */
    method Marshal(data: seq<(Value, Value)>, ext: Option<string>, encode: (Codec, seq<(Value, Value)>) -> string)
      returns (r: Result<string>)
      requires Valid()
      modifies this`marshallerRegistry
      ensures Valid() && Registered() == old(Registered())
      ensures var e := if ext.Some? then ext.value else extname;
        match FindCodec(Objects(), e)
        case Some(c) => r == Ok(encode(c, data))
        case None => r == Err(WriteError("Config file format `" + e + "` is not supported."))
    {
      var e := if ext.Some? then ext.value else extname;
      var codec := CreateMarshaller(e);
      if codec.None? {
        return Err(WriteError("Config file format `" + e + "` is not supported."));
      }
      r := Ok(encode(codec.value, data));
    }

    /** `unmarshal(content, ext:)` with the codec's reader given as `decode`. */
    method Unmarshal(content: string, ext: Option<string>, decode: (Codec, string) -> Result<Value>)
      returns (r: Result<Value>)
      requires Valid()
      modifies this`marshallerRegistry
      ensures Valid() && Registered() == old(Registered())
      ensures var e := if ext.Some? then ext.value else extname;
        match FindCodec(Objects(), e)
        case Some(c) => r == decode(c, content)
        case None => r == Err(ReadError("Config file format `" + e + "` is not supported."))
    {
      var e := if ext.Some? then ext.value else extname;
      var codec := CreateMarshaller(e);
      if codec.None? {
        return Err(ReadError("Config file format `" + e + "` is not supported."));
      }
      r := decode(codec.value, content);
    }
  }
}
