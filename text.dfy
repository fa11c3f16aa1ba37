/** The handful of Ruby String and Array methods the library relies on:
    `Array#join`, `String#split` with a one-character separator,
    `String#gsub` of one character, ASCII `upcase`/`downcase` and
    `Integer#to_s`. */
module Text {

  /** `Array#join(sep)` on an array of strings. */
  function Join(parts: seq<string>, sep: string): (r: string)
    ensures parts == [] ==> r == ""
    ensures |parts| == 1 ==> r == parts[0]
  {
    if parts == [] then ""
    else if |parts| == 1 then parts[0]
    else parts[0] + sep + Join(parts[1..], sep)
  }

  /** Every field of `s` between occurrences of `c`, empty ones included
      (`String#split(c, -1)`): there is always one more field than there
      are separators. */
  function Fields(s: string, c: char): (r: seq<string>)
    ensures |r| >= 1
    ensures forall i :: 0 <= i < |r| ==> c !in r[i]
  {
    if s == [] then [""]
    else
      var rest := Fields(s[1..], c);
      if s[0] == c then [""] + rest
      else [[s[0]] + rest[0]] + rest[1..]
  }

  /** `String#split` drops the empty fields at the end. */
  function DropTrailingEmpty(fs: seq<string>): (r: seq<string>)
    ensures |r| <= |fs| && r == fs[..|r|]
    ensures r == [] || r[|r| - 1] != ""
    ensures forall i :: |r| <= i < |fs| ==> fs[i] == ""
  {
    if fs != [] && fs[|fs| - 1] == "" then DropTrailingEmpty(fs[..|fs| - 1])
    else fs
  }

  /** `s.split(c)` for a one-character string `c`. */
  function Split(s: string, c: char): (r: seq<string>)
    ensures forall i :: 0 <= i < |r| ==> c !in r[i]
    ensures r == [] || r[|r| - 1] != ""
  {
    DropTrailingEmpty(Fields(s, c))
  }

  /** `s.gsub(c, repl)`: every occurrence of `c` replaced by `repl`. */
  function Gsub(s: string, c: char, repl: string): (r: string)
    ensures c !in repl ==> c !in r
    ensures forall x :: x in r ==> x in s || x in repl
  {
    if s == [] then ""
    else (if s[0] == c then repl else [s[0]]) + Gsub(s[1..], c, repl)
  }

  function UpcaseChar(ch: char): char {
    if 'a' <= ch <= 'z' then (ch as int - 32) as char else ch
  }

  function DowncaseChar(ch: char): char {
    if 'A' <= ch <= 'Z' then (ch as int + 32) as char else ch
  }

  /** `String#upcase`, for ASCII letters. */
  function Upcase(s: string): (r: string)
    ensures |r| == |s|
    ensures forall i :: 0 <= i < |s| ==> r[i] == UpcaseChar(s[i])
  {
    seq(|s|, i requires 0 <= i < |s| => UpcaseChar(s[i]))
  }

  /** `String#downcase`, for ASCII letters. */
  function Downcase(s: string): (r: string)
    ensures |r| == |s|
    ensures forall i :: 0 <= i < |s| ==> r[i] == DowncaseChar(s[i])
  {
    seq(|s|, i requires 0 <= i < |s| => DowncaseChar(s[i]))
  }

  function DigitChar(d: nat): char
    requires d < 10
  {
    ('0' as int + d) as char
  }

  function NatToString(n: nat): (r: string)
    ensures |r| >= 1
    ensures forall i :: 0 <= i < |r| ==> '0' <= r[i] <= '9'
  {
    if n < 10 then [DigitChar(n)] else NatToString(n / 10) + [DigitChar(n % 10)]
  }

  /** `Integer#to_s`: decimal digits, with a leading '-' when negative. */
  function IntToString(i: int): (r: string)
    ensures |r| >= 1
    ensures (r[0] == '-') <==> i < 0
  {
    if i < 0 then "-" + NatToString(-i) else NatToString(i)
  }

  /** `upcase` is idempotent, so a name that is already upper case is kept. */
  lemma UpcaseIdempotent(s: string)
    ensures Upcase(Upcase(s)) == Upcase(s)
  {
    forall i | 0 <= i < |s| ensures Upcase(Upcase(s))[i] == Upcase(s)[i] {
      assert Upcase(s)[i] == UpcaseChar(s[i]);
    }
  }

  /** An upper-cased text holds no lower-case ASCII letter, and any other
      character that is not an upper-case letter comes from the text itself. */
  lemma UpcaseLetters(s: string)
    ensures forall x :: x in Upcase(s) ==> !('a' <= x <= 'z')
    ensures forall x :: x in Upcase(s) && !('A' <= x <= 'Z') ==> x in s
  {
    forall x | x in Upcase(s) ensures !('a' <= x <= 'z') && (!('A' <= x <= 'Z') ==> x in s) {
      var i :| 0 <= i < |s| && Upcase(s)[i] == x;
      assert x == UpcaseChar(s[i]);
    }
  }

  /** Joining the fields of `s` with `c` gives `s` back. */
  lemma {:induction false} JoinFields(s: string, c: char)
    ensures Join(Fields(s, c), [c]) == s
  {
    if s != [] {
      JoinFields(s[1..], c);
      var rest := Fields(s[1..], c);
      if s[0] == c {
        assert Fields(s, c) == [""] + rest;
        assert ([""] + rest)[1..] == rest;
      } else {
        var fs := [[s[0]] + rest[0]] + rest[1..];
        if |rest| == 1 {
          assert Join(rest, [c]) == rest[0];
        } else {
          assert Join(rest, [c]) == rest[0] + [c] + Join(rest[1..], [c]);
          assert fs[1..] == rest[1..];
        }
        assert [s[0]] + s[1..] == s;
      }
    }
  }

  /** A string without `c` is one field. */
  lemma {:induction false} FieldsOfPlain(a: string, c: char)
    requires c !in a
    ensures Fields(a, c) == [a]
  {
    if a != [] {
      FieldsOfPlain(a[1..], c);
      assert [a[0]] + a[1..] == a;
    }
  }

  /** The fields of `a + c + b`, when `a` holds no `c`, are `a` and then
      the fields of `b`. */
  lemma {:induction false} FieldsCons(a: string, b: string, c: char)
    requires c !in a
    ensures Fields(a + [c] + b, c) == [a] + Fields(b, c)
  {
    if a == [] {
      assert a + [c] + b == [c] + b;
      assert ([c] + b)[1..] == b;
    } else {
      var s := a + [c] + b;
      assert s[1..] == a[1..] + [c] + b;
      FieldsCons(a[1..], b, c);
      assert [a[0]] + a[1..] == a;
    }
  }

  /** Splitting a join of `c`-free parts into all its fields gives the
      parts back. */
  lemma {:induction false} FieldsOfJoin(parts: seq<string>, c: char)
    requires parts != []
    requires forall i :: 0 <= i < |parts| ==> c !in parts[i]
    ensures Fields(Join(parts, [c]), c) == parts
  {
    if |parts| == 1 {
      FieldsOfPlain(parts[0], c);
    } else {
      FieldsOfJoin(parts[1..], c);
      FieldsCons(parts[0], Join(parts[1..], [c]), c);
      assert [parts[0]] + parts[1..] == parts;
    }
  }

  /** `gsub` of one character is the same as splitting into all fields and
      joining them with the replacement. */
  lemma {:induction false} GsubIsJoinOfFields(s: string, c: char, repl: string)
    ensures Gsub(s, c, repl) == Join(Fields(s, c), repl)
  {
    if s != [] {
      GsubIsJoinOfFields(s[1..], c, repl);
      var rest := Fields(s[1..], c);
      var tail := Gsub(s[1..], c, repl);
      assert tail == Join(rest, repl);
      if s[0] == c {
        var fs := [""] + rest;
        assert Fields(s, c) == fs;
        assert fs[1..] == rest;
        assert Join(fs, repl) == "" + repl + Join(rest, repl);
        assert Gsub(s, c, repl) == repl + tail;
      } else {
        var fs := [[s[0]] + rest[0]] + rest[1..];
        assert Fields(s, c) == fs;
        assert Gsub(s, c, repl) == [s[0]] + tail;
        if |rest| > 1 {
          assert Join(rest, repl) == rest[0] + repl + Join(rest[1..], repl);
          assert fs[1..] == rest[1..];
          assert Join(fs, repl) == ([s[0]] + rest[0]) + repl + Join(rest[1..], repl);
        }
      }
    }
  }
}
