/** Environment variable names and the preferred source of settings:
    `to_env_key`, which turns a flat settings key into an ENV name, and
    `normalize_preferred`, which accepts the spellings of the two sources. */
module EnvNames {
  import opened Outcomes
  import opened Text
  import opened KeyPaths

  /** Where `fetch` looks first. */
  datatype Source = Settings | Environment

  /** `normalize_preferred(source)`: the accepted names of each source. */
  function NormalizePreferred(source: string): (r: Result<Source>)
    ensures r == Ok(Settings) <==> source in ["settings", "configuration", "config", "file", "files"]
    ensures r == Ok(Environment) <==> source in ["environment", "env", "ENV"]
    ensures r.Err? ==> r.error == UnsupportedSource("Preferred Source `" + source + "` is not supported.")
  {
    if source in ["settings", "configuration", "config", "file", "files"] then Ok(Settings)
    else if source in ["environment", "env", "ENV"] then Ok(Environment)
    else Err(UnsupportedSource("Preferred Source `" + source + "` is not supported."))
  }

  /** The Symbol `preferred` holds after normalisation. */
  function SourceName(s: Source): string {
    match s
    case Settings => "settings"
    case Environment => "environment"
  }

  /** Normalising a normalised preference changes nothing, so the stored
      `preferred` can be passed back as `prefer:`. */
  lemma NormalizeSourceName(s: Source)
    ensures NormalizePreferred(SourceName(s)) == Ok(s)
  {
  }

  /** `to_env_key(key)`: every delimiter replaced by the separator, upper
      case, and the upper-cased prefix and a separator in front when the
      prefix is not empty. */
  function ToEnvKey(key: string, prefix: string, separator: string): (r: string)
    ensures KeyDelim !in prefix && KeyDelim !in separator ==> KeyDelim !in r
    ensures forall x :: x in r && 'a' <= x <= 'z' ==> x in separator
  {
    var name := Upcase(Gsub(key, KeyDelim, separator));
    UpcaseLetters(Gsub(key, KeyDelim, separator));
    UpcaseLetters(prefix);
    if prefix == "" then name else Upcase(prefix) + separator + name
  }

  /** Without a prefix the ENV name is the upper-cased segments of the key
      joined by the separator; the name holds no delimiter when the
      separator holds none, and no lower-case ASCII letter. */
  lemma {:induction false} EnvKeyOfSegments(key: string, separator: string)
    ensures ToEnvKey(key, "", separator) == Upcase(Join(Fields(key, KeyDelim), separator))
    ensures KeyDelim !in separator ==> KeyDelim !in ToEnvKey(key, "", separator)
    ensures forall i :: 0 <= i < |ToEnvKey(key, "", separator)| ==> !('a' <= ToEnvKey(key, "", separator)[i] <= 'z')
  {
    GsubIsJoinOfFields(key, KeyDelim, separator);
    var g := Gsub(key, KeyDelim, separator);
    forall i | 0 <= i < |g| ensures Upcase(g)[i] != KeyDelim || KeyDelim in g {
      assert Upcase(g)[i] == UpcaseChar(g[i]);
      assert g[i] in g;
    }
  }

  /** With a prefix, the name starts with the upper-cased prefix and the
      separator as given (not upper-cased), followed by the name the key
      has without a prefix. */
  lemma EnvKeyWithPrefix(key: string, prefix: string, separator: string)
    requires prefix != ""
    ensures ToEnvKey(key, prefix, separator) == Upcase(prefix) + separator + ToEnvKey(key, "", separator)
  {
  }

  /** An ENV name that is already upper case, without delimiters, is kept
      as it is: binding a key to "HOST" reads the variable HOST. */
  lemma EnvKeyOfName(name: string)
    requires KeyDelim !in name
    requires forall i :: 0 <= i < |name| ==> !('a' <= name[i] <= 'z')
    ensures forall separator :: ToEnvKey(name, "", separator) == name
  {
    forall separator ensures ToEnvKey(name, "", separator) == name {
      GsubPlain(name, separator);
      assert Upcase(name) == name;
    }
  }

  lemma {:induction false} GsubPlain(s: string, separator: string)
    requires KeyDelim !in s
    ensures Gsub(s, KeyDelim, separator) == s
  {
    if s != [] {
      GsubPlain(s[1..], separator);
      assert [s[0]] + s[1..] == s;
    }
  }
}
