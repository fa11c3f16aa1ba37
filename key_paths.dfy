/** Key paths: how the arguments of `set`, `fetch` and friends become a
    list of key segments (`convert_to_keys`) and a flat dotted name
    (`flatten_keys`). Arguments are modelled by their `to_s` strings. */
module KeyPaths {
  import opened Text

  /** The key delimiter, fixed to "." by the constructor. */
  const KeyDelim: char := '.'

  /** `convert_to_keys`: a first argument that contains the delimiter is
      split and the other arguments are ignored; otherwise every argument
      is one segment. */
  function ConvertToKeys(keys: seq<string>): (r: seq<string>)
    ensures keys != [] && KeyDelim in keys[0] ==> forall i :: 0 <= i < |r| ==> KeyDelim !in r[i]
    ensures keys == [] || KeyDelim !in keys[0] ==> r == keys
  {
    if keys != [] && KeyDelim in keys[0] then Split(keys[0], KeyDelim) else keys
  }

  /** `flatten_keys`: a first argument that contains the delimiter is the
      flat key itself; otherwise the arguments joined by the delimiter. */
  function FlattenKeys(keys: seq<string>): (r: string)
    ensures keys == [] ==> r == ""
    ensures keys != [] && KeyDelim in keys[0] ==> r == keys[0]
  {
    if keys != [] && KeyDelim in keys[0] then keys[0] else Join(keys, [KeyDelim])
  }

  /** A path whose segments `flatten_keys` and `convert_to_keys` carry
      through unchanged: at least one segment, none containing the
      delimiter, and (for several segments) a last one that is not empty,
      since `String#split` drops trailing empty fields. */
  predicate PlainPath(s: seq<string>) {
    && s != []
    && (forall i :: 0 <= i < |s| ==> KeyDelim !in s[i])
    && (|s| == 1 || s[|s| - 1] != "")
  }

  lemma DelimInJoin(s: seq<string>)
    requires |s| > 1
    ensures KeyDelim in Join(s, [KeyDelim])
  {
    assert Join(s, [KeyDelim])[|s[0]|] == KeyDelim;
  }

  /** Flattening a plain path and passing the flat key back in as the
      only argument gives the same segments. */
  lemma FlattenConvertRoundTrip(s: seq<string>)
    requires PlainPath(s)
    ensures ConvertToKeys([FlattenKeys(s)]) == s
  {
    if |s| > 1 {
      DelimInJoin(s);
      FieldsOfJoin(s, KeyDelim);
    }
  }

  /** `convert_to_keys` is idempotent, so converting keys that were
      already converted (as `set_if_empty` does before calling `set`)
      changes nothing. */
  lemma ConvertIdempotent(keys: seq<string>)
    ensures ConvertToKeys(ConvertToKeys(keys)) == ConvertToKeys(keys)
  {
  }

  /** The last field is empty exactly when the string ends in `c` or is
      empty. */
  lemma {:induction false} LastField(s: string, c: char)
    ensures var fs := Fields(s, c);
      fs[|fs| - 1] == "" <==> s == [] || s[|s| - 1] == c
  {
    if s != [] {
      LastField(s[1..], c);
      if |s| == 1 {
        assert s[1..] == [];
      } else {
        assert s[1..][|s| - 2] == s[|s| - 1];
      }
    }
  }

  /** A string that contains `c` has at least two fields. */
  lemma {:induction false} TwoFields(s: string, c: char)
    requires c in s
    ensures |Fields(s, c)| >= 2
  {
    if s[0] != c {
      TwoFields(s[1..], c);
    }
  }

  /** A dotted first key that does not end in the delimiter is its own
      flat key after conversion: `set("a.b")` and `validate("a.b")` (or
      `validate(:a, :b)`) name the same flat key. */
  lemma FlattenOfConverted(keys: seq<string>)
    requires keys != [] && KeyDelim in keys[0]
    requires keys[0][|keys[0]| - 1] != KeyDelim
    ensures FlattenKeys(ConvertToKeys(keys)) == keys[0]
  {
    var fs := Fields(keys[0], KeyDelim);
    LastField(keys[0], KeyDelim);
    TwoFields(keys[0], KeyDelim);
    assert DropTrailingEmpty(fs) == fs;
    JoinFields(keys[0], KeyDelim);
  }

  /** Splitting a flat key into its segments and flattening them again
      (as `fetch` does with an alias target) gives the flat key back
      when it ends in a segment. */
  lemma SplitFlattenRoundTrip(flat: string)
    requires KeyDelim in flat && flat[|flat| - 1] != KeyDelim
    ensures FlattenKeys(Split(flat, KeyDelim)) == flat
    ensures ConvertToKeys(Split(flat, KeyDelim)) == Split(flat, KeyDelim)
  {
    FlattenOfConverted([flat]);
  }

  /** The segments `fetch` reads through an alias: the alias target is the
      flat key of a plain path, and splitting it and converting the result
      gives the path back. */
  lemma AliasTargetRoundTrip(s: seq<string>)
    requires PlainPath(s) && FlattenKeys(s) != ""
    ensures ConvertToKeys(Split(FlattenKeys(s), KeyDelim)) == s
  {
    if |s| > 1 {
      FlattenConvertRoundTrip(s);
      DelimInJoin(s);
    } else {
      FieldsOfPlain(s[0], KeyDelim);
    }
  }
}
