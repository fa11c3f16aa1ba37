/** The marshaller registry: an insertion-ordered table from a format name
    to the codec class that reads and writes that format. A codec is known
    here by its format and the list of file extensions it handles. */
module Codecs {
  import opened Outcomes
  import opened OrderedMaps

  /** A codec class and its `ext` list. */
  datatype Codec = Codec(format: string, ext: seq<string>)

  /** The argument of `registered?`: a name or a codec object. */
  datatype NameOrObject = Name(name: string) | Object(codec: Codec)

  /** `objects.reduce([]) { |acc, obj| acc + obj.ext }`: every codec's
      extensions, in registration order, duplicates kept. */
  function ConcatExts(objects: seq<Codec>): (r: seq<string>)
    ensures objects != [] ==> |objects[0].ext| <= |r| && r[..|objects[0].ext|] == objects[0].ext
  {
    if objects == [] then []
    else
      var init := objects[..|objects| - 1];
      assert |objects| > 1 ==> init[0] == objects[0];
      ConcatExts(init) + objects[|objects| - 1].ext
  }

  /** An extension is in the concatenation exactly when some codec lists it. */
  lemma {:induction false} ConcatExtsHas(objects: seq<Codec>, e: string)
    ensures e in ConcatExts(objects) <==> exists i :: 0 <= i < |objects| && e in objects[i].ext
  {
    if objects != [] {
      var init := objects[..|objects| - 1];
      ConcatExtsHas(init, e);
      if exists i :: 0 <= i < |init| && e in init[i].ext {
        var i :| 0 <= i < |init| && e in init[i].ext;
        assert objects[i] == init[i];
      }
      if exists i :: 0 <= i < |objects| && e in objects[i].ext {
        var i :| 0 <= i < |objects| && e in objects[i].ext;
        if i < |init| {
          assert init[i] == objects[i];
        }
      }
    }
  }

  /** Concatenating a longer list keeps the earlier extensions in front. */
  lemma {:induction false} ConcatExtsAppend(objects: seq<Codec>, more: seq<Codec>)
    ensures ConcatExts(objects + more) == ConcatExts(objects) + ConcatExts(more)
    decreases |more|
  {
    if more == [] {
      assert objects + more == objects;
    } else {
      var init := more[..|more| - 1];
      var last := more[|more| - 1];
      assert (objects + more)[..|objects + more| - 1] == objects + init;
      assert ConcatExts(objects + more) == ConcatExts(objects + init) + last.ext;
      assert ConcatExts(more) == ConcatExts(init) + last.ext;
      ConcatExtsAppend(objects, init);
    }
  }

  /** The codecs left after `unregister` of each name in turn. */
  function RemoveAll(m: seq<(string, Codec)>, names: seq<string>): seq<(string, Codec)> {
    if names == [] then m
    else Remove(RemoveAll(m, names[..|names| - 1]), names[|names| - 1])
  }

  /** What each `unregister` returns: the codec removed, or nil. */
  function Removed(m: seq<(string, Codec)>, names: seq<string>): (r: seq<Option<Codec>>)
    ensures |r| == |names|
  {
    if names == [] then []
    else
      var init := names[..|names| - 1];
      Removed(m, init) + [Lookup(RemoveAll(m, init), names[|names| - 1])]
  }

  /** After removing a list of names, exactly those names are gone. */
  lemma {:induction false} LookupRemoveAll(m: seq<(string, Codec)>, names: seq<string>, k: string)
    requires UniqueKeys(m)
    ensures UniqueKeys(RemoveAll(m, names))
    ensures Lookup(RemoveAll(m, names), k) == if k in names then None else Lookup(m, k)
  {
    if names != [] {
      var init := names[..|names| - 1];
      LookupRemoveAll(m, init, k);
      RemoveUnique(RemoveAll(m, init), names[|names| - 1]);
      LookupRemove(RemoveAll(m, init), names[|names| - 1], k);
      assert names == init + [names[|names| - 1]];
    }
  }

  /** With no name repeated, `unregister` returns for each name the codec
      it had before, in argument order. */
  lemma {:induction false} RemovedDistinct(m: seq<(string, Codec)>, names: seq<string>, i: nat)
    requires UniqueKeys(m) && i < |names|
    requires forall a, b :: 0 <= a < b < |names| ==> names[a] != names[b]
    ensures Removed(m, names)[i] == Lookup(m, names[i])
  {
    var init := names[..|names| - 1];
    if i < |init| {
      RemovedDistinct(m, init, i);
    } else {
      LookupRemoveAll(m, init, names[i]);
    }
  }

  class MarshallerRegistry {
    /** `@marshallers`: names in registration order with their codecs. */
    var marshallers: seq<(string, Codec)>

    /** A Ruby Hash holds each name once. */
    ghost predicate Valid()
      reads this
    {
      UniqueKeys(marshallers)
    }

    /** `MarshallerRegistry.new(mappings = {})` */
    constructor (mappings: seq<(string, Codec)>)
      requires UniqueKeys(mappings)
      ensures marshallers == mappings && Valid()
    {
      marshallers := mappings;
    }

    /** `names`: the registered names, in order. */
    function Names(): (r: seq<string>)
      reads this
      ensures |r| == |marshallers| && forall i :: 0 <= i < |r| ==> r[i] == marshallers[i].0
    {
      Keys(marshallers)
    }

    /** `objects`: the codecs, in the order of their names. */
    function Objects(): (r: seq<Codec>)
      reads this
      ensures |r| == |Names()| && forall i :: 0 <= i < |r| ==> (Names()[i], r[i]) == marshallers[i]
    {
      Values(marshallers)
    }

    /** `exts`: the reduce over the codecs. */
    method Exts() returns (r: seq<string>)
      ensures r == ConcatExts(Objects())
      ensures forall e :: e in r <==> exists i :: 0 <= i < |Objects()| && e in Objects()[i].ext
    {
      r := [];
      var i := 0;
      while i < |marshallers|
        invariant 0 <= i <= |marshallers|
        invariant r == ConcatExts(Objects()[..i])
      {
        assert Objects()[..i + 1][..i] == Objects()[..i];
        r := r + marshallers[i].1.ext;
        i := i + 1;
      }
      assert Objects()[..i] == Objects();
      forall e ensures e in r <==> exists i :: 0 <= i < |Objects()| && e in Objects()[i].ext {
        ConcatExtsHas(Objects(), e);
      }
    }

    /** `registered?(name_or_object)`: a registered name, or a registered
      codec. */
    function IsRegistered(x: NameOrObject): (r: bool)
      reads this
      ensures r <==> (x.Name? && x.name in Names()) || (x.Object? && x.codec in Objects())
    {
      LookupFound(marshallers, if x.Name? then x.name else "");
      (x.Name? && Lookup(marshallers, x.name).Some?) || (x.Object? && x.codec in Values(marshallers))
    }

    /** `register(name, object)`: a new name goes to the end; a known name
      keeps its place and gets the new codec. */
    method Register(name: string, codec: Codec) returns (r: Codec)
      requires Valid()
      modifies this
      ensures Valid()
      ensures marshallers == Store(old(marshallers), name, codec) && r == codec
      ensures Names() == if name in old(Names()) then old(Names()) else old(Names()) + [name]
      ensures Lookup(marshallers, name) == Some(codec)
      ensures forall k :: k != name ==> Lookup(marshallers, k) == Lookup(old(marshallers), k)
    {
      StoreUnique(marshallers, name, codec);
      StoreKeys(marshallers, name, codec);
      forall k ensures Lookup(Store(marshallers, name, codec), k) == if k == name then Some(codec) else Lookup(marshallers, k) {
        LookupStore(marshallers, name, codec, k);
      }
      marshallers := Store(marshallers, name, codec);
      r := codec;
    }

    /** `unregister(name)`: the codec removed, or nil when the name is not
      registered; the other names keep their order. */
    method Unregister(name: string) returns (r: Option<Codec>)
      requires Valid()
      modifies this
      ensures Valid()
      ensures r == Lookup(old(marshallers), name)
      ensures r.Some? <==> name in old(Names())
      ensures marshallers == Remove(old(marshallers), name)
      ensures Names() == Without(old(Names()), name)
    {
      r := Lookup(marshallers, name);
      LookupFound(marshallers, name);
      RemoveUnique(marshallers, name);
      RemoveKeys(marshallers, name);
      marshallers := Remove(marshallers, name);
    }

    /** `[](name)`: `Hash#fetch`, which raises KeyError for an unknown name. */
    function Get(name: string): (r: Result<Codec>)
      reads this
      ensures r.Err? <==> name !in Names()
      ensures r.Err? ==> r.error == KeyError(name)
      ensures r.Ok? ==> (name, r.value) in marshallers
    {
      LookupFound(marshallers, name);
      match Lookup(marshallers, name)
      case Some(c) => Ok(c)
      case None => Err(KeyError(name))
    }
  }

  /** A registry made with no mappings has no names, codecs or extensions. */
  lemma EmptyRegistry(reg: MarshallerRegistry)
    requires reg.marshallers == []
    ensures reg.Names() == [] && reg.Objects() == [] && ConcatExts(reg.Objects()) == []
  {
  }
}
