/** The INI generator: turns a settings hash into the lines of an INI file.
    Top-level pairs are sorted by key and split into plain values and
    sections; values are written first, then each section under its
    `[name]` header. */
module Generator {
  import opened Outcomes
  import opened OrderedMaps
  import opened Text
  import opened Values

  // ---------------------------------------------------------------------
  // Sorting the top-level pairs

  /** `String#<=>` on the characters: lexicographic, a prefix first. */
  predicate TextLe(a: string, b: string)
    decreases a
  {
    a == [] || (b != [] && (a[0] < b[0] || (a[0] == b[0] && TextLe(a[1..], b[1..]))))
  }

  lemma {:induction false} TextLeTotal(a: string, b: string)
    ensures TextLe(a, b) || TextLe(b, a)
    decreases a
  {
    if a != [] && b != [] && a[0] == b[0] {
      TextLeTotal(a[1..], b[1..]);
    }
  }

  /** Two keys `<=>` can order: both Strings, both Symbols or both Integers. */
  predicate SameKind(a: Value, b: Value) {
    (a.Str? && b.Str?) || (a.Sym? && b.Sym?) || (a.Int? && b.Int?)
  }

  /** `a <= b` for keys of the same kind. */
  predicate KeyLe(a: Value, b: Value) {
    match (a, b)
    case (Str(x), Str(y)) => TextLe(x, y)
    case (Sym(x), Sym(y)) => TextLe(x, y)
    case (Int(x), Int(y)) => x <= y
    case _ => false
  }

  lemma KeyLeTotal(a: Value, b: Value)
    requires SameKind(a, b)
    ensures KeyLe(a, b) || KeyLe(b, a)
  {
    if a.Str? {
      TextLeTotal(a.s, b.s);
    } else if a.Sym? {
      TextLeTotal(a.name, b.name);
    }
  }

  /** Every two keys of the hash can be compared. */
  predicate Comparable(data: seq<(Value, Value)>) {
    forall i, j :: 0 <= i < |data| && 0 <= j < |data| ==> SameKind(data[i].0, data[j].0)
  }

  predicate SortedByKey(s: seq<(Value, Value)>) {
    forall i :: 0 <= i < |s| - 1 ==> KeyLe(s[i].0, s[i + 1].0)
  }

  /** Insert a pair in front of the first pair whose key is not smaller. */
  function Insert(p: (Value, Value), s: seq<(Value, Value)>): (r: seq<(Value, Value)>)
    ensures |r| == |s| + 1
  {
    if s == [] then [p]
    else if KeyLe(p.0, s[0].0) then [p] + s
    else [s[0]] + Insert(p, s[1..])
  }

  /** `data.sort` on a hash: the pairs ordered by key. */
  function SortByKey(data: seq<(Value, Value)>): (r: seq<(Value, Value)>)
    ensures |r| == |data|
  {
    if data == [] then [] else Insert(data[0], SortByKey(data[1..]))
  }

  lemma {:induction false} InsertPermutes(p: (Value, Value), s: seq<(Value, Value)>)
    ensures multiset(Insert(p, s)) == multiset(s) + multiset{p}
  {
    if s != [] && !KeyLe(p.0, s[0].0) {
      InsertPermutes(p, s[1..]);
      assert s == [s[0]] + s[1..];
    }
  }

  /** Inserting into a sorted list of comparable keys keeps it sorted; the
      first pair is the new one or the old first one. */
  lemma {:induction false} InsertSorted(p: (Value, Value), s: seq<(Value, Value)>)
    requires SortedByKey(s)
    requires forall i :: 0 <= i < |s| ==> SameKind(p.0, s[i].0)
    ensures SortedByKey(Insert(p, s))
    ensures Insert(p, s)[0] == p || (s != [] && Insert(p, s)[0] == s[0])
  {
    if s != [] && !KeyLe(p.0, s[0].0) {
      KeyLeTotal(p.0, s[0].0);
      InsertSorted(p, s[1..]);
      var rest := Insert(p, s[1..]);
      assert rest[0] == p || rest[0] == s[1];
      assert Insert(p, s) == [s[0]] + rest;
    }
  }

  lemma {:induction false} SortPermutes(data: seq<(Value, Value)>)
    ensures multiset(SortByKey(data)) == multiset(data)
  {
    if data != [] {
      SortPermutes(data[1..]);
      InsertPermutes(data[0], SortByKey(data[1..]));
      assert data == [data[0]] + data[1..];
    }
  }

  /** Sorting comparable keys puts them in order, and keeps every pair. */
  lemma {:induction false} SortSorted(data: seq<(Value, Value)>)
    requires Comparable(data)
    ensures SortedByKey(SortByKey(data))
    ensures multiset(SortByKey(data)) == multiset(data)
  {
    SortPermutes(data);
    if data != [] {
      var tail := data[1..];
      assert Comparable(tail) by {
        forall i, j | 0 <= i < |tail| && 0 <= j < |tail| ensures SameKind(tail[i].0, tail[j].0) {
          assert SameKind(data[i + 1].0, data[j + 1].0);
        }
      }
      SortSorted(tail);
      var sorted := SortByKey(tail);
      forall i | 0 <= i < |sorted| ensures SameKind(data[0].0, sorted[i].0) {
        assert sorted[i] in multiset(tail);
        var j :| 0 <= j < |tail| && tail[j] == sorted[i];
        assert SameKind(data[0].0, data[j + 1].0);
      }
      InsertSorted(data[0], sorted);
    }
  }

  // ---------------------------------------------------------------------
  // Grouping

  /** `section?(value)`: a Hash, or an Array of hashes only (an empty
      Array included). */
  predicate IsSection(v: Value)
    ensures IsSection(v) ==> v.Hash? || v.Arr?
    ensures v.Arr? && v.items == [] ==> IsSection(v)
  {
    v.Hash? || (v.Arr? && forall i :: 0 <= i < |v.items| ==> v.items[i].Hash?)
  }

  /** The pairs of `s` whose value is (or is not) a section, in order. */
  function Pick(s: seq<(Value, Value)>, sections: bool): (r: seq<(Value, Value)>)
    ensures |r| <= |s|
    ensures forall i :: 0 <= i < |r| ==> IsSection(r[i].1) == sections
    ensures multiset(r) <= multiset(s)
  {
    if s == [] then []
    else
      var rest := Pick(s[1..], sections);
      assert s == [s[0]] + s[1..];
      if IsSection(s[0].1) == sections then [s[0]] + rest else rest
  }

  /** The two groups of `group_into_sections_and_values`. */
  datatype Grouped = Grouped(sections: seq<(Value, Value)>, values: seq<(Value, Value)>)

  /** `group_into_sections_and_values(data)`: `data.sort` fails on keys it
      cannot compare as soon as there are two pairs. */
  function Group(data: seq<(Value, Value)>): (r: Result<Grouped>)
    ensures r.Err? <==> |data| >= 2 && !Comparable(data)
    ensures r.Ok? ==> multiset(r.value.sections) + multiset(r.value.values) == multiset(data)
    ensures r.Ok? ==> forall i :: 0 <= i < |r.value.sections| ==> IsSection(r.value.sections[i].1)
    ensures r.Ok? ==> forall i :: 0 <= i < |r.value.values| ==> !IsSection(r.value.values[i].1)
  {
    SortPermutes(data);
    PickSplits(SortByKey(data));
    if |data| >= 2 && !Comparable(data) then Err(ArgumentError("comparison of Array with Array failed"))
    else
      var sorted := SortByKey(data);
      Ok(Grouped(Pick(sorted, true), Pick(sorted, false)))
  }

  lemma {:induction false} PickSplits(s: seq<(Value, Value)>)
    ensures multiset(Pick(s, true)) + multiset(Pick(s, false)) == multiset(s)
  {
    if s != [] {
      PickSplits(s[1..]);
      assert s == [s[0]] + s[1..];
    }
  }

  /** Picking from a sorted list keeps it sorted. */
  lemma {:induction false} PickSorted(s: seq<(Value, Value)>, sections: bool)
    requires forall i, j :: 0 <= i < j < |s| ==> KeyLe(s[i].0, s[j].0)
    ensures forall i, j :: 0 <= i < j < |Pick(s, sections)| ==> KeyLe(Pick(s, sections)[i].0, Pick(s, sections)[j].0)
  {
    if s != [] {
      var rest := Pick(s[1..], sections);
      PickSorted(s[1..], sections);
      if IsSection(s[0].1) == sections {
        PickedAfterHead(s, sections);
        var r := [s[0]] + rest;
        forall i, j | 0 <= i < j < |r| ensures KeyLe(r[i].0, r[j].0) {
          assert r[j] == rest[j - 1] && r[j] in rest;
          if i > 0 {
            assert r[i] == rest[i - 1];
          }
        }
      }
    }
  }

  /** Every pair picked from the tail of a list sorted from its head on
      comes after the head. */
  lemma PickedAfterHead(s: seq<(Value, Value)>, sections: bool)
    requires s != []
    requires forall j :: 1 <= j < |s| ==> KeyLe(s[0].0, s[j].0)
    ensures forall x :: x in Pick(s[1..], sections) ==> KeyLe(s[0].0, x.0)
  {
    forall x | x in Pick(s[1..], sections) ensures KeyLe(s[0].0, x.0) {
      assert x in multiset(Pick(s[1..], sections));
      var k :| 0 <= k < |s[1..]| && s[1..][k] == x;
      assert s[k + 1] == x;
    }
  }

  /** Adjacent order over keys of one kind is order between any two pairs. */
  lemma {:induction false} SortedAll(s: seq<(Value, Value)>)
    requires SortedByKey(s) && Comparable(s)
    ensures forall i, j :: 0 <= i < j < |s| ==> KeyLe(s[i].0, s[j].0)
    decreases |s|
  {
    if |s| > 1 {
      var t := s[1..];
      assert Comparable(t) by {
        forall i, j | 0 <= i < |t| && 0 <= j < |t| ensures SameKind(t[i].0, t[j].0) {
          assert SameKind(s[i + 1].0, s[j + 1].0);
        }
      }
      SortedAll(t);
      forall i, j | 0 <= i < j < |s| ensures KeyLe(s[i].0, s[j].0) {
        if i == 0 {
          if j > 1 {
            assert KeyLe(s[1].0, s[j].0) by { assert t[0] == s[1] && t[j - 1] == s[j]; }
            KeyLeTrans(s[0].0, s[1].0, s[j].0);
          }
        } else {
          assert t[i - 1] == s[i] && t[j - 1] == s[j];
        }
      }
    }
  }

  lemma {:induction false} TextLeTrans(a: string, b: string, c: string)
    requires TextLe(a, b) && TextLe(b, c)
    ensures TextLe(a, c)
    decreases a
  {
    if a != [] && b != [] && c != [] && a[0] == b[0] && b[0] == c[0] {
      TextLeTrans(a[1..], b[1..], c[1..]);
    }
  }

  lemma KeyLeTrans(a: Value, b: Value, c: Value)
    requires KeyLe(a, b) && KeyLe(b, c)
    ensures KeyLe(a, c)
  {
    if a.Str? {
      TextLeTrans(a.s, b.s, c.s);
    } else if a.Sym? {
      TextLeTrans(a.name, b.name, c.name);
    }
  }

  /** Grouping splits the pairs into sections and plain values, each
      ordered by key, and loses and adds none. */
  lemma GroupPartitions(data: seq<(Value, Value)>)
    requires Comparable(data)
    ensures Group(data).Ok?
    ensures var g := Group(data).value;
      && (forall i :: 0 <= i < |g.sections| ==> IsSection(g.sections[i].1))
      && (forall i :: 0 <= i < |g.values| ==> !IsSection(g.values[i].1))
      && (forall i, j :: 0 <= i < j < |g.sections| ==> KeyLe(g.sections[i].0, g.sections[j].0))
      && (forall i, j :: 0 <= i < j < |g.values| ==> KeyLe(g.values[i].0, g.values[j].0))
      && multiset(g.sections) + multiset(g.values) == multiset(data)
  {
    var sorted := SortByKey(data);
    SortSorted(data);
    assert Comparable(sorted) by {
      forall i, j | 0 <= i < |sorted| && 0 <= j < |sorted| ensures SameKind(sorted[i].0, sorted[j].0) {
        assert sorted[i] in multiset(data) && sorted[j] in multiset(data);
        var a :| 0 <= a < |data| && data[a] == sorted[i];
        var b :| 0 <= b < |data| && data[b] == sorted[j];
      }
    }
    SortedAll(sorted);
    PickSorted(sorted, true);
    PickSorted(sorted, false);
    PickSplits(sorted);
  }

  /** Keys of different kinds cannot be sorted. */
  lemma GroupRejectsMixedKeys(data: seq<(Value, Value)>, i: nat, j: nat)
    requires i < |data| && j < |data| && i != j && !SameKind(data[i].0, data[j].0)
    ensures Group(data) == Err(ArgumentError("comparison of Array with Array failed"))
  {
  }

  // ---------------------------------------------------------------------
  // Rendering

  /** The text `"#{v}"` and `Array#join(",")` give a value: an Array is
      joined by "," (nested arrays the same way, nil as ""), and a Hash or
      a callable is rendered by `inspect`, which is not modelled. */
  function ToS(v: Value, inspect: Value -> string): (r: string)
    ensures v == Bool(false) ==> r == "false"
    ensures v.Arr? && v.items == [] ==> r == ""
    ensures v.Arr? && |v.items| == 1 ==> r == ToS(v.items[0], inspect)
    decreases v
  {
    match v
    case Nil => ""
    case Bool(b) => if b then "true" else "false"
    case Int(i) => IntToString(i)
    case Str(s) => s
    case Sym(name) => name
    case Arr(items) => Join(seq(|items|, k requires 0 <= k < |items| => ToS(items[k], inspect)), ",")
    case _ => inspect(v)
  }

  /** `generate_pair(key, value, separator)`: one space on each side of
      the separator. */
  function GeneratePair(key: Value, value: Value, separator: string, inspect: Value -> string): (r: string)
    ensures |r| == |ToS(key, inspect)| + |separator| + |ToS(value, inspect)| + 2
  {
    ToS(key, inspect) + " " + separator + " " + ToS(value, inspect)
  }

  /** `generate_values(values, separator)`: one line per pair, in the
      given order, pairs whose value is nil left out. */
  function GenerateValues(pairs: seq<(Value, Value)>, separator: string, inspect: Value -> string): (r: seq<string>)
    ensures |r| <= |pairs|
    ensures r == [] <==> forall i :: 0 <= i < |pairs| ==> pairs[i].1.Nil?
  {
    if pairs == [] then []
    else
      var rest := GenerateValues(pairs[1..], separator, inspect);
      assert forall i :: 1 <= i < |pairs| ==> pairs[i] == pairs[1..][i - 1];
      if pairs[0].1.Nil? then rest
      else [GeneratePair(pairs[0].0, pairs[0].1, separator, inspect)] + rest
  }

  /** The pairs whose value is not nil, in order. */
  function Present(pairs: seq<(Value, Value)>): (r: seq<(Value, Value)>)
    ensures forall i :: 0 <= i < |r| ==> !r[i].1.Nil?
  {
    if pairs == [] then []
    else if pairs[0].1.Nil? then Present(pairs[1..])
    else [pairs[0]] + Present(pairs[1..])
  }

  /** Every pair with a value, false included, gives exactly one line, in
      the order of the pairs; nil values give none. */
  lemma {:induction false} ValueLines(pairs: seq<(Value, Value)>, separator: string, inspect: Value -> string)
    ensures var lines := GenerateValues(pairs, separator, inspect);
      && |lines| == |Present(pairs)|
      && forall i :: 0 <= i < |lines| ==>
           lines[i] == GeneratePair(Present(pairs)[i].0, Present(pairs)[i].1, separator, inspect)
  {
    if pairs != [] {
      ValueLines(pairs[1..], separator, inspect);
    }
  }

  /** A false value is written out, not dropped. */
  lemma FalseIsWritten(key: Value, separator: string, inspect: Value -> string)
    ensures GenerateValues([(key, Bool(false))], separator, inspect)
         == [ToS(key, inspect) + " " + separator + " false"]
  {
    var k := ToS(key, inspect);
    assert k + " " + separator + " " + "false" == k + " " + separator + " false";
  }

  /** An Array of strings without commas is written so that splitting the
      text at "," gives the strings back. */
  lemma ArrayFields(items: seq<Value>, inspect: Value -> string)
    requires items != []
    requires forall i :: 0 <= i < |items| ==> items[i].Str? && ',' !in items[i].s
    ensures Fields(ToS(Arr(items), inspect), ',') == seq(|items|, i requires 0 <= i < |items| => items[i].s)
  {
    var parts := seq(|items|, i requires 0 <= i < |items| => ToS(items[i], inspect));
    assert parts == seq(|items|, i requires 0 <= i < |items| => items[i].s);
    FieldsOfJoin(parts, ',');
  }

  /** The pairs a list of hashes leaves when merged left to right with
      `Hash#merge`: a later value replaces an earlier one where it stands,
      a new key is appended. */
  function MergeAll(hashes: seq<Value>): (r: seq<(Value, Value)>)
    requires forall i :: 0 <= i < |hashes| ==> hashes[i].Hash?
    ensures UniqueKeys(r)
    ensures forall k :: k in Keys(r) <==> exists i :: 0 <= i < |hashes| && k in Keys(hashes[i].entries)
  {
    if hashes == [] then []
    else
      var init := hashes[..|hashes| - 1];
      var last := hashes[|hashes| - 1];
      assert forall i :: 0 <= i < |init| ==> init[i] == hashes[i];
      MergeEntries(MergeAll(init), last.entries)
  }

  /** `acc.merge(hash)` for the entries of `hash`. */
  function MergeEntries(acc: seq<(Value, Value)>, entries: seq<(Value, Value)>): (r: seq<(Value, Value)>)
    ensures UniqueKeys(acc) ==> UniqueKeys(r)
    ensures forall k :: k in Keys(r) <==> k in Keys(acc) || k in Keys(entries)
  {
    if entries == [] then acc
    else
      var init := entries[..|entries| - 1];
      var last := entries[|entries| - 1];
      var prev := MergeEntries(acc, init);
      StoreKeys(prev, last.0, last.1);
      assert UniqueKeys(prev) ==> UniqueKeys(Store(prev, last.0, last.1)) by {
        if UniqueKeys(prev) {
          StoreUnique(prev, last.0, last.1);
        }
      }
      KeysSnoc(entries);
      Store(prev, last.0, last.1)
  }

  /** The value the last hash holding `k` gives it, if any. */
  function LastLookup(hashes: seq<Value>, k: Value): Option<Value>
    requires forall i :: 0 <= i < |hashes| ==> hashes[i].Hash?
  {
    if hashes == [] then None
    else
      var found := Lookup(hashes[|hashes| - 1].entries, k);
      if found.Some? then found else LastLookup(hashes[..|hashes| - 1], k)
  }

  lemma {:induction false} LookupMergeEntries(acc: seq<(Value, Value)>, entries: seq<(Value, Value)>, k: Value)
    requires UniqueKeys(entries)
    ensures Lookup(MergeEntries(acc, entries), k) == if Lookup(entries, k).Some? then Lookup(entries, k) else Lookup(acc, k)
  {
    if entries != [] {
      var init := entries[..|entries| - 1];
      var last := entries[|entries| - 1];
      assert UniqueKeys(init);
      assert entries == init + [last];
      LookupMergeEntries(acc, init, k);
      LookupStore(MergeEntries(acc, init), last.0, last.1, k);
      LookupSnoc(init, last, k);
      if last.0 == k {
        LookupFound(init, k);
        assert k !in Keys(init) by {
          forall j | 0 <= j < |init| ensures Keys(init)[j] != k {
            assert entries[j].0 != entries[|entries| - 1].0;
          }
        }
      }
    }
  }

  lemma {:induction false} LookupSnoc(m: seq<(Value, Value)>, p: (Value, Value), k: Value)
    ensures Lookup(m + [p], k) == if Lookup(m, k).Some? then Lookup(m, k) else if p.0 == k then Some(p.1) else None
  {
    if m != [] {
      assert (m + [p])[1..] == m[1..] + [p];
      LookupSnoc(m[1..], p, k);
    }
  }

  /** In the merged section a key has the value of the last hash that
      holds it. */
  lemma {:induction false} MergeAllLastWins(hashes: seq<Value>, k: Value)
    requires forall i :: 0 <= i < |hashes| ==> hashes[i].Hash? && UniqueKeys(hashes[i].entries)
    ensures Lookup(MergeAll(hashes), k) == LastLookup(hashes, k)
  {
    if hashes != [] {
      MergeAllLastWins(hashes[..|hashes| - 1], k);
      LookupMergeEntries(MergeAll(hashes[..|hashes| - 1]), hashes[|hashes| - 1].entries, k);
    }
  }

  /** The pairs a section renders: a Hash's own, or the merge of an Array
      of hashes. */
  function SectionPairs(section: Value): seq<(Value, Value)>
    requires IsSection(section)
  {
    if section.Hash? then section.entries else MergeAll(section.items)
  }

  /** `section.empty?` for a section. */
  predicate EmptySection(section: Value)
    requires IsSection(section)
  {
    if section.Hash? then section.entries == [] else section.items == []
  }

  /** The lines of one section: none when it is empty, else its header,
      its pairs in their own order, and a blank line. */
  function SectionLines(name: Value, section: Value, separator: string, inspect: Value -> string): (r: seq<string>)
    requires IsSection(section)
    ensures EmptySection(section) <==> r == []
    ensures !EmptySection(section) ==> |r| >= 2 && r[0] == "[" + ToS(name, inspect) + "]" && r[|r| - 1] == ""
  {
    if EmptySection(section) then []
    else ["[" + ToS(name, inspect) + "]"] + GenerateValues(SectionPairs(section), separator, inspect) + [""]
  }

  /** `generate_sections(sections, separator)` */
  function GenerateSections(sections: seq<(Value, Value)>, separator: string, inspect: Value -> string): (r: seq<string>)
    requires forall i :: 0 <= i < |sections| ==> IsSection(sections[i].1)
    ensures r == [] <==> forall i :: 0 <= i < |sections| ==> EmptySection(sections[i].1)
    ensures r != [] ==> |r| >= 2
  {
    if sections == [] then []
    else
      var rest := GenerateSections(sections[1..], separator, inspect);
      assert forall i :: 1 <= i < |sections| ==> sections[i] == sections[1..][i - 1];
      SectionLines(sections[0].0, sections[0].1, separator, inspect) + rest
  }

  /** `Generator.generate(data, separator:)` */
  function Generate(data: seq<(Value, Value)>, separator: string, inspect: Value -> string): (r: Result<string>)
    ensures r.Err? <==> |data| >= 2 && !Comparable(data)
    ensures data == [] ==> r == Ok("")
  {
    var g :- Group(data);
    var values := GenerateValues(g.values, separator, inspect);
    var sections := GenerateSections(g.sections, separator, inspect);
    Ok(Join((if values == [] then [] else values + [""]) + sections, "\n"))
  }

  lemma {:induction false} JoinAppend(a: seq<string>, b: seq<string>, sep: string)
    requires a != [] && b != []
    ensures Join(a + b, sep) == Join(a, sep) + sep + Join(b, sep)
  {
    if |a| > 1 {
      assert (a + b)[1..] == a[1..] + b;
      JoinAppend(a[1..], b, sep);
    } else {
      assert (a + b)[1..] == b;
    }
  }

  /** The value lines followed by a blank line end in one newline. */
  lemma JoinBlank(values: seq<string>)
    requires values != []
    ensures Join(values + [""], "\n") == Join(values, "\n") + "\n"
  {
    JoinAppend(values, [""], "\n");
  }

  /** Between the value lines and the section lines stands an empty line. */
  lemma JoinLayout(values: seq<string>, sections: seq<string>)
    requires values != [] && sections != []
    ensures Join(values + [""] + sections, "\n") == Join(values, "\n") + "\n\n" + Join(sections, "\n")
  {
    JoinBlank(values);
    JoinAppend(values + [""], sections, "\n");
  }

  /** Two lines or more never join into "". */
  lemma JoinNonEmpty(lines: seq<string>)
    requires |lines| >= 2
    ensures |Join(lines, "\n")| >= 1
  {
  }

  /** The output is the value lines and a blank line, when any value is
      rendered, followed by the section lines; nothing rendered gives "". */
  lemma GenerateLayout(data: seq<(Value, Value)>, separator: string, inspect: Value -> string)
    requires Group(data).Ok?
    ensures var g := Group(data).value;
      var values := GenerateValues(g.values, separator, inspect);
      var sections := GenerateSections(g.sections, separator, inspect);
      && (values != [] && sections != [] ==>
            Generate(data, separator, inspect) == Ok(Join(values, "\n") + "\n\n" + Join(sections, "\n")))
      && (values != [] && sections == [] ==>
            Generate(data, separator, inspect) == Ok(Join(values, "\n") + "\n"))
      && (values == [] ==> Generate(data, separator, inspect) == Ok(Join(sections, "\n")))
      && (Generate(data, separator, inspect) == Ok("") <==> values == [] && sections == [])
  {
    var g := Group(data).value;
    var values := GenerateValues(g.values, separator, inspect);
    var sections := GenerateSections(g.sections, separator, inspect);
    var lines := (if values == [] then [] else values + [""]) + sections;
    assert Generate(data, separator, inspect) == Ok(Join(lines, "\n"));
    if values == [] {
      assert lines == sections;
      if sections != [] {
        JoinNonEmpty(sections);
      }
    } else if sections == [] {
      assert lines == values + [""];
      JoinBlank(values);
    } else {
      JoinLayout(values, sections);
    }
  }
}
