/** Command-line overrides: `vardef` turns `a.b.c=value` into the nested mapping
    `{a: {b: {c: value}}}`, its inner `path2dict` doing the nesting. */
module Overrides {
  import opened Results
  import Text
  import PyInt
  import opened Configuration

  /** `path2dict(path, val)`: split at the first '.', nest the rest under the part before
      it; a path without '.' holds the value directly. */
  function PathToDict(path: string, val: Config): (r: Config)
    ensures r.Mapping? && |r.entries| == 1
    ensures '.' !in r.entries[0].key
    decreases |path|
  {
    var parts := Text.Partition(path, '.');
    if parts.found then Mapping([Entry(parts.head, PathToDict(parts.tail, val))])
    else Mapping([Entry(path, val)])
  }

  /** A chain of singleton mappings along `keys`, innermost holding `val`. */
  function Nest(keys: seq<string>, val: Config): Config
    requires |keys| >= 1
  {
    if |keys| == 1 then Mapping([Entry(keys[0], val)])
    else Mapping([Entry(keys[0], Nest(keys[1..], val))])
  }

  /** The value reached from `c` through the mapping keys `keys`. */
  function Get(c: Config, keys: seq<string>): Option<Config>
    decreases |keys|
  {
    if keys == [] then Some(c)
    else if !c.Mapping? then None
    else
      match Lookup(c.entries, keys[0])
      case Some(v) => Get(v, keys[1..])
      case None => None
  }

  /** `path2dict` nests once per '.'-separated segment of the path, in order. */
  lemma {:induction false} PathToDictNest(path: string, val: Config)
    ensures PathToDict(path, val) == Nest(Text.Split(path, '.'), val)
    decreases |path|
  {
    var parts := Text.Partition(path, '.');
    if parts.found {
      Text.SplitAround(parts.head, parts.tail, '.');
      PathToDictNest(parts.tail, val);
      var keys := Text.Split(path, '.');
      assert keys[1..] == Text.Split(parts.tail, '.');
    } else {
      Text.SplitNoSeparator(path, '.');
    }
  }

  /** Following the segments of the path through the nested mapping reaches the value. */
  lemma {:induction false} NestGet(keys: seq<string>, val: Config)
    requires |keys| >= 1
    ensures Get(Nest(keys, val), keys) == Some(val)
    decreases |keys|
  {
    var es := Nest(keys, val).entries;
    assert Lookup(es, keys[0]).Some? by { LookupHead(es); }
    if |keys| == 1 {
      LookupHead(es);
      assert keys[1..] == [];
    } else {
      LookupHead(es);
      NestGet(keys[1..], val);
    }
  }

  /** Each level of the nest is a one-key mapping, so it is well formed whenever the
      value is. */
  lemma {:induction false} NestWellFormed(keys: seq<string>, val: Config)
    requires |keys| >= 1 && WellFormed(val)
    ensures WellFormed(Nest(keys, val))
    decreases |keys|
  {
    if |keys| > 1 {
      NestWellFormed(keys[1..], val);
    }
  }

  /** `path2dict` reaches `val` along the path's segments, and those segments joined by
      '.' give back the path. */
  lemma PathToDictGet(path: string, val: Config)
    ensures Get(PathToDict(path, val), Text.Split(path, '.')) == Some(val)
    ensures Text.Join(Text.Split(path, '.'), ".") == path
  {
    PathToDictNest(path, val);
    NestGet(Text.Split(path, '.'), val);
    Text.JoinSplit(path, '.');
  }

  /** The value of an override: `int(v, 0)` when that parses, else `float(v)` when
      `isFloat` (Python's `float` acceptance, outside this model) accepts the text, else
      the text itself. */
  function Coerce(v: string, isFloat: string -> bool): (r: Scalar)
    ensures r.Int? <==> PyInt.ParseInt(v, 0).Some?
    ensures r.Int? ==> PyInt.ParseInt(v, 0) == Some(r.i)
    ensures r.Float? <==> PyInt.ParseInt(v, 0).None? && isFloat(v)
    ensures r.Float? ==> r.text == v
    ensures r.Str? <==> PyInt.ParseInt(v, 0).None? && !isFloat(v)
    ensures r.Str? ==> r.s == v
  {
    match PyInt.ParseInt(v, 0)
    case Some(n) => Int(n)
    case None => if isFloat(v) then Float(v) else Str(v)
  }

  /** `vardef(arg)`: the name is the text before the first '=', the value the text after
      it (empty when there is no '='). */
  function VarDef(arg: string, isFloat: string -> bool): Config
  {
    var parts := Text.Partition(arg, '=');
    PathToDict(parts.head, Leaf(Coerce(parts.tail, isFloat)))
  }

  /** `name=value` with `name` free of '=' nests the coerced value along the segments of
      `name`; any later '=' belongs to the value. */
  lemma VarDefSplit(name: string, value: string, isFloat: string -> bool)
    requires '=' !in name
    ensures VarDef(name + "=" + value, isFloat) ==
      Nest(Text.Split(name, '.'), Leaf(Coerce(value, isFloat)))
  {
    Text.PartitionAt(name, '=', value);
    PathToDictNest(name, Leaf(Coerce(value, isFloat)));
  }

  /** Without '=' the whole argument is the name and the value is the empty string. */
  lemma VarDefNoValue(arg: string, isFloat: string -> bool)
    requires '=' !in arg
    ensures VarDef(arg, isFloat) == Nest(Text.Split(arg, '.'), Leaf(Coerce("", isFloat)))
  {
    PathToDictNest(arg, Leaf(Coerce("", isFloat)));
  }

  /** An override is always a well-formed configuration fragment. */
  lemma VarDefWellFormed(arg: string, isFloat: string -> bool)
    ensures WellFormed(VarDef(arg, isFloat))
  {
    var parts := Text.Partition(arg, '=');
    PathToDictNest(parts.head, Leaf(Coerce(parts.tail, isFloat)));
    NestWellFormed(Text.Split(parts.head, '.'), Leaf(Coerce(parts.tail, isFloat)));
  }

  /** `name=value` with a plain name is a one-key mapping. */
  lemma VarDefOneKey(arg: string, name: string, value: string, isFloat: string -> bool)
    requires arg == name + "=" + value
    requires '=' !in name && '.' !in name
    ensures VarDef(arg, isFloat) == Mapping([Entry(name, Leaf(Coerce(value, isFloat)))])
  {
    VarDefSplit(name, value, isFloat);
    Text.SplitNoSeparator(name, '.');
  }

  /** `outer.inner=value` is a mapping holding a one-key mapping. */
  lemma VarDefTwoKeys(arg: string, outer: string, inner: string, value: string, isFloat: string -> bool)
    requires arg == outer + "." + inner + "=" + value
    requires '=' !in outer && '.' !in outer && '=' !in inner && '.' !in inner
    ensures VarDef(arg, isFloat) ==
      Mapping([Entry(outer, Mapping([Entry(inner, Leaf(Coerce(value, isFloat)))]))])
  {
    var name := outer + "." + inner;
    var val := Leaf(Coerce(value, isFloat));
    assert Text.Split(name, '.') == [outer, inner] by {
      Text.SplitAround(outer, inner, '.');
      Text.SplitNoSeparator(inner, '.');
    }
    assert VarDef(arg, isFloat) == Nest(Text.Split(name, '.'), val) by {
      assert arg == name + "=" + value;
      assert '=' !in name;
      VarDefSplit(name, value, isFloat);
    }
    var ks := [outer, inner];
    assert ks[1..] == [inner];
    assert Nest(ks[1..], val) == Mapping([Entry(inner, val)]);
    assert Nest(ks, val) == Mapping([Entry(outer, Nest(ks[1..], val))]);
  }

  /** `Fred` is no integer literal: `F` is not a decimal digit. */
  lemma NotAnInteger(v: string)
    requires v == "Fred"
    ensures PyInt.ParseInt(v, 0) == None
  {
    assert PyInt.ParseMagnitude(v, 0) == None by {
      assert PyInt.PrefixBase(v) == 10;
      assert PyInt.SkipPrefix(v, 10) == v;
      assert PyInt.DigitValue(v[0]) == 15;
    }
    PyInt.PlainParse(v, 0);
  }

  /** `user.name=Fred` gives `{'user': {'name': 'Fred'}}`. */
  lemma UserNameExample(arg: string, isFloat: string -> bool)
    requires arg == "user.name=Fred" && !isFloat("Fred")
    ensures VarDef(arg, isFloat) == Mapping([Entry("user", Mapping([Entry("name", Leaf(Str("Fred")))]))])
  {
    VarDefTwoKeys(arg, "user", "name", "Fred", isFloat);
    NotAnInteger("Fred");
  }

  /** `count=0x10` gives `{'count': 16}`: base 0 honours the hexadecimal prefix. */
  lemma HexOverrideExample(arg: string, isFloat: string -> bool)
    requires arg == "count=0x10"
    ensures VarDef(arg, isFloat) == Mapping([Entry("count", Leaf(Int(16)))])
  {
    VarDefOneKey(arg, "count", "0x10", isFloat);
    PyInt.HexPrefixExample();
  }
}
