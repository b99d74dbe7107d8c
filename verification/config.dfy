/** Configuration trees and `cfg_merge`.

    A configuration is what `json.load` yields, and what `yaml.load` yields for documents of
    the same types: a mapping, a list or a scalar (YAML's timestamps, binary and set values
    are not modelled). A mapping is an association list in insertion order, which is the
    iteration order of a Python `dict`; that order decides which conflict is reported first
    and where newly inserted keys go. `cfg_merge` mutates its target in place and raises
    `ValueError` on a shape conflict; here it is a total function returning the merged
    entries or the error. */
module Configuration {
  import opened Results
  import Text

  datatype Scalar = Str(s: string) | Int(i: int) | Float(text: string) | Bool(b: bool) | Null

  datatype Config = Mapping(entries: seq<Entry>) | List(items: seq<Config>) | Leaf(scalar: Scalar)

  datatype Entry = Entry(key: string, value: Config)

  /** The Python type of a value, as the error messages name it. */
  datatype Kind = DictKind | ListKind | StrKind | IntKind | FloatKind | BoolKind | NoneKind

  function KindOf(c: Config): Kind
  {
    match c
    case Mapping(_) => DictKind
    case List(_) => ListKind
    case Leaf(Str(_)) => StrKind
    case Leaf(Int(_)) => IntKind
    case Leaf(Float(_)) => FloatKind
    case Leaf(Bool(_)) => BoolKind
    case Leaf(Null) => NoneKind
  }

  /** The four `ValueError`s of `cfg_merge`; `at` is the '/'-joined path of the mapping
      that holds the conflicting key. */
  datatype MergeError =
    | CannotMergeDict(other: Kind, at: string)       // mapping in the target, `other` in the source
    | CannotExtendList(other: Kind, at: string)      // list in the target, `other` in the source
    | CannotMergeWithDict(existing: Kind, at: string)  // scalar `existing` in the target, mapping in the source
    | CannotMergeWithList(existing: Kind, at: string)  // scalar `existing` in the target, list in the source

  function Keys(es: seq<Entry>): (ks: seq<string>)
    ensures |ks| == |es|
    ensures forall i :: 0 <= i < |es| ==> ks[i] == es[i].key
  {
    if es == [] then [] else [es[0].key] + Keys(es[1..])
  }

  /** Position of the entry for `k` (the first one, should there be several), or -1. */
  function Find(es: seq<Entry>, k: string): (r: int)
    ensures -1 <= r < |es|
    ensures r < 0 ==> forall j :: 0 <= j < |es| ==> es[j].key != k
    ensures 0 <= r ==> es[r].key == k && forall j :: 0 <= j < r ==> es[j].key != k
  {
    if es == [] then -1
    else if es[0].key == k then 0
    else
      var r := Find(es[1..], k);
      if r < 0 then -1 else r + 1
  }

  /** `cfg[k]` when `k in cfg`. */
  function Lookup(es: seq<Entry>, k: string): Option<Config>
  {
    var i := Find(es, k);
    if i < 0 then None else Some(es[i].value)
  }

  predicate UniqueKeys(es: seq<Entry>)
  {
    forall i, j :: 0 <= i < j < |es| ==> es[i].key != es[j].key
  }

  /** Every mapping in the tree has distinct keys, as every parsed JSON or YAML document
      has. */
  predicate WellFormed(c: Config)
  {
    match c
    case Mapping(es) => UniqueKeys(es) && forall i :: 0 <= i < |es| ==> WellFormed(es[i].value)
    case List(xs) => forall i :: 0 <= i < |xs| ==> WellFormed(xs[i])
    case Leaf(_) => true
  }

  /** `cfg_merge(cfg, extra, path)`: fold the entries of `source`, in order, into `target`. */
  function MergeInto(target: seq<Entry>, source: seq<Entry>, path: seq<string>): Result<seq<Entry>, MergeError>
    decreases source
  {
    if source == [] then Ok(target)
    else
      var k := source[0].key;
      var i := Find(target, k);
      if i < 0 then MergeInto(target + [source[0]], source[1..], path)
      else
        var v :- MergeValue(target[i].value, source[0].value, path, k);
        MergeInto(target[i := Entry(k, v)], source[1..], path)
  }

  /** The value key `key` of the mapping at `path` ends up with when the target holds
      `existing` and the source brings `incoming`. */
  function MergeValue(existing: Config, incoming: Config, path: seq<string>, key: string): Result<Config, MergeError>
    decreases incoming
  {
    var at := Text.Join(path, "/");
    match existing
    case Mapping(inner) =>
      if !incoming.Mapping? then Err(CannotMergeDict(KindOf(incoming), at))
      else
        var merged :- MergeInto(inner, incoming.entries, path + [key]);
        Ok(Mapping(merged))
    case List(xs) =>
      if incoming.List? then Ok(List(xs + incoming.items)) else Err(CannotExtendList(KindOf(incoming), at))
    case Leaf(_) =>
      if incoming.Mapping? then Err(CannotMergeWithDict(KindOf(existing), at))
      else if incoming.List? then Err(CannotMergeWithList(KindOf(existing), at))
      else Ok(incoming)
  }

  // ---------------------------------------------------------------------------------
  // Reference notions the merge is measured against

  /** The keys of `ks` that are not in `seen`, each once, in order of first appearance. */
  function Fresh(ks: seq<string>, seen: seq<string>): (r: seq<string>)
    ensures forall x :: x in r <==> x in ks && x !in seen
    ensures forall i, j :: 0 <= i < j < |r| ==> r[i] != r[j]
  {
    if ks == [] then []
    else if ks[0] in seen then Fresh(ks[1..], seen)
    else
      var rest := Fresh(ks[1..], seen + [ks[0]]);
      assert ks[0] !in rest;
      [ks[0]] + rest
  }

  /** Whether merging `incoming` into `existing` raises no error, stated key by key. */
  predicate Compatible(existing: Config, incoming: Config)
    decreases incoming
  {
    match existing
    case Mapping(inner) => incoming.Mapping? && Mergeable(inner, incoming.entries)
    case List(_) => incoming.List?
    case Leaf(_) => incoming.Leaf?
  }

  /** Every source key that the target already holds brings a compatible value. */
  predicate Mergeable(target: seq<Entry>, source: seq<Entry>)
    decreases source
  {
    forall i :: 0 <= i < |source| ==>
      var t := Lookup(target, source[i].key);
      t.None? || Compatible(t.value, source[i].value)
  }

  /** The value the merged mapping holds for `k`: the target's when the source lacks `k`,
      the source's when the target lacks it, and the combination of both otherwise. */
  function MergedValue(target: seq<Entry>, source: seq<Entry>, path: seq<string>, k: string): Option<Config>
  {
    match Lookup(source, k)
    case None => Lookup(target, k)
    case Some(incoming) =>
      match Lookup(target, k)
      case None => Some(incoming)
      case Some(existing) =>
        match MergeValue(existing, incoming, path, k)
        case Ok(v) => Some(v)
        case Err(_) => None
  }

  /** The mapping reached from the mapping `es` by following the keys `q` through nested
      mappings, if `q` leads through mappings only. */
  function Descend(es: seq<Entry>, q: seq<string>): Option<seq<Entry>>
    decreases |q|
  {
    if q == [] then Some(es)
    else
      match Lookup(es, q[0])
      case Some(Mapping(inner)) => Descend(inner, q[1..])
      case _ => None
  }

  /** The key `c` is held by both mappings, with values of incompatible shapes. */
  predicate Clash(target: seq<Entry>, source: seq<Entry>, c: string)
  {
    Lookup(target, c).Some? && Lookup(source, c).Some? &&
    !Compatible(Lookup(target, c).value, Lookup(source, c).value)
  }

  /** `q` leads through mappings in both the target and the source, and the two mappings
      it reaches hold some key with values of incompatible shapes. */
  ghost predicate ConflictAt(target: seq<Entry>, source: seq<Entry>, q: seq<string>)
  {
    Descend(target, q).Some? && Descend(source, q).Some? &&
    exists c :: Clash(Descend(target, q).value, Descend(source, q).value, c)
  }

  // ---------------------------------------------------------------------------------
  // Facts about lookups

  lemma LookupAppend(t: seq<Entry>, e: Entry, k: string)
    ensures Lookup(t + [e], k) ==
      if k in Keys(t) then Lookup(t, k) else if e.key == k then Some(e.value) else None
  {
    var t1 := t + [e];
    var i, j := Find(t, k), Find(t1, k);
    if 0 <= i {
      assert t1[i] == t[i];
      assert j == i;
    } else {
      assert k !in Keys(t);
      if e.key == k {
        assert t1[|t|] == e;
      }
    }
  }

  lemma LookupUpdate(t: seq<Entry>, k: string, v: Config, k2: string)
    requires 0 <= Find(t, k)
    ensures Lookup(t[Find(t, k) := Entry(k, v)], k2) == if k2 == k then Some(v) else Lookup(t, k2)
  {
    var i := Find(t, k);
    var t1 := t[i := Entry(k, v)];
    var j, j1 := Find(t, k2), Find(t1, k2);
    assert forall n :: 0 <= n < |t| ==> t1[n].key == t[n].key;
    if 0 <= j {
      assert t1[j].key == k2;
      assert j1 == j;
    }
  }

  lemma LookupTail(s: seq<Entry>, k: string)
    requires s != [] && s[0].key != k
    ensures Lookup(s, k) == Lookup(s[1..], k)
  {
  }

  lemma LookupHead(s: seq<Entry>)
    requires s != []
    ensures Lookup(s, s[0].key) == Some(s[0].value)
  {
  }

  // ---------------------------------------------------------------------------------
  // What `cfg_merge` promises

  /** The target's keys keep their places; source keys the target lacks are appended in
      source order. */
  lemma {:induction false} MergeKeyOrder(t: seq<Entry>, s: seq<Entry>, p: seq<string>)
    requires MergeInto(t, s, p).Ok?
    ensures Keys(MergeInto(t, s, p).value) == Keys(t) + Fresh(Keys(s), Keys(t))
    decreases s
  {
    if s != [] {
      var i := Find(t, s[0].key);
      if i < 0 {
        MergeKeyOrder(t + [s[0]], s[1..], p);
        InsertKeyOrder(t, s, p);
      } else {
        var v := MergeValue(t[i].value, s[0].value, p, s[0].key).value;
        MergeKeyOrder(t[i := Entry(s[0].key, v)], s[1..], p);
        UpdateKeyOrder(t, s, p);
      }
    }
  }

  /** The step of `MergeKeyOrder` for a key the target lacks, given the rest. */
  lemma InsertKeyOrder(t: seq<Entry>, s: seq<Entry>, p: seq<string>)
    requires s != [] && Find(t, s[0].key) < 0 && MergeInto(t, s, p).Ok?
    requires var t1 := t + [s[0]];
      Keys(MergeInto(t1, s[1..], p).value) == Keys(t1) + Fresh(Keys(s[1..]), Keys(t1))
    ensures Keys(MergeInto(t, s, p).value) == Keys(t) + Fresh(Keys(s), Keys(t))
  {
    var k := s[0].key;
    var kt := Keys(t);
    assert MergeInto(t, s, p) == MergeInto(t + [s[0]], s[1..], p);
    KeysSnoc(t, s[0]);
    KeysCons(s);
    FreshCons(k, Keys(s[1..]), kt);
    Text.AppendAssoc(kt, [k], Fresh(Keys(s[1..]), kt + [k]));
  }

  /** An entry added at the end adds its key at the end. */
  lemma KeysSnoc(t: seq<Entry>, e: Entry)
    ensures Keys(t + [e]) == Keys(t) + [e.key]
  {
  }

  /** The keys of a nonempty mapping: the first key, then the rest. */
  lemma KeysCons(s: seq<Entry>)
    requires s != []
    ensures Keys(s) == [s[0].key] + Keys(s[1..])
  {
  }

  /** A key not yet seen is kept, and then counts as seen. */
  lemma FreshCons(k: string, ks: seq<string>, seen: seq<string>)
    requires k !in seen
    ensures Fresh([k] + ks, seen) == [k] + Fresh(ks, seen + [k])
  {
    assert ([k] + ks)[1..] == ks;
  }

  /** The step of `MergeKeyOrder` for a key the target holds, given the rest. */
  lemma UpdateKeyOrder(t: seq<Entry>, s: seq<Entry>, p: seq<string>)
    requires s != [] && 0 <= Find(t, s[0].key) && MergeInto(t, s, p).Ok?
    requires var i := Find(t, s[0].key);
      var t1 := t[i := Entry(s[0].key, MergeValue(t[i].value, s[0].value, p, s[0].key).value)];
      Keys(MergeInto(t1, s[1..], p).value) == Keys(t1) + Fresh(Keys(s[1..]), Keys(t1))
    ensures Keys(MergeInto(t, s, p).value) == Keys(t) + Fresh(Keys(s), Keys(t))
  {
    var k := s[0].key;
    var i := Find(t, k);
    var t1 := t[i := Entry(k, MergeValue(t[i].value, s[0].value, p, k).value)];
    assert Keys(s) == [k] + Keys(s[1..]);
    assert Keys(t1) == Keys(t);
    assert k in Keys(t) by { assert Keys(t)[i] == k; }
  }

  /** After a successful merge every key holds the value `MergedValue` describes. */
  lemma {:induction false} MergeLookup(t: seq<Entry>, s: seq<Entry>, p: seq<string>, k: string)
    requires UniqueKeys(s) && MergeInto(t, s, p).Ok?
    ensures Lookup(MergeInto(t, s, p).value, k) == MergedValue(t, s, p, k)
    decreases s
  {
    if s != [] {
      var k0 := s[0].key;
      var i := Find(t, k0);
      var t1 := if i < 0 then t + [s[0]]
                else t[i := Entry(k0, MergeValue(t[i].value, s[0].value, p, k0).value)];
      assert MergeInto(t, s, p) == MergeInto(t1, s[1..], p);
      MergeLookup(t1, s[1..], p, k);
      LookupHead(s);
      if i < 0 {
        LookupAppend(t, s[0], k);
        assert k0 !in Keys(t);
      } else {
        LookupUpdate(t, k0, MergeValue(t[i].value, s[0].value, p, k0).value, k);
      }
      if k == k0 {
        assert Lookup(s[1..], k).None?;
      } else {
        LookupTail(s, k);
      }
    }
  }

  lemma MergeableFrame(t: seq<Entry>, t1: seq<Entry>, s: seq<Entry>)
    requires forall i :: 0 <= i < |s| ==> Lookup(t1, s[i].key) == Lookup(t, s[i].key)
    ensures Mergeable(t1, s) <==> Mergeable(t, s)
  {
  }

  lemma WellFormedTail(s: seq<Entry>)
    requires s != [] && WellFormed(Mapping(s))
    ensures WellFormed(Mapping(s[1..])) && WellFormed(s[0].value)
  {
    assert forall i :: 0 <= i < |s| - 1 ==> s[1..][i] == s[i + 1];
  }

  /** A merge of two parsed documents fails exactly when some common key holds values of
      incompatible shapes, at whatever depth. */
  lemma {:induction false} MergeIntoOk(t: seq<Entry>, s: seq<Entry>, p: seq<string>)
    requires WellFormed(Mapping(s))
    ensures MergeInto(t, s, p).Ok? <==> Mergeable(t, s)
    decreases s
  {
    if s != [] {
      var k := s[0].key;
      var i := Find(t, k);
      WellFormedTail(s);
      forall j | 1 <= j < |s|
        ensures s[j].key != k
      {
      }
      if i < 0 {
        var t1 := t + [s[0]];
        MergeIntoOk(t1, s[1..], p);
        forall j | 0 <= j < |s[1..]|
          ensures Lookup(t1, s[1..][j].key) == Lookup(t, s[1..][j].key)
        {
          LookupAppend(t, s[0], s[1..][j].key);
        }
        MergeableFrame(t, t1, s[1..]);
        assert Lookup(t, k).None?;
        MergeableCons(t, s);
      } else {
        MergeValueOk(t[i].value, s[0].value, p, k);
        MergeableCons(t, s);
        var r := MergeValue(t[i].value, s[0].value, p, k);
        if r.Ok? {
          var t1 := t[i := Entry(k, r.value)];
          MergeIntoOk(t1, s[1..], p);
          forall j | 0 <= j < |s[1..]|
            ensures Lookup(t1, s[1..][j].key) == Lookup(t, s[1..][j].key)
          {
            LookupUpdate(t, k, r.value, s[1..][j].key);
          }
          MergeableFrame(t, t1, s[1..]);
        }
      }
    }
  }

  lemma MergeableCons(t: seq<Entry>, s: seq<Entry>)
    requires s != []
    ensures Mergeable(t, s) <==>
      (Lookup(t, s[0].key).None? || Compatible(Lookup(t, s[0].key).value, s[0].value)) && Mergeable(t, s[1..])
  {
    assert forall j :: 1 <= j < |s| ==> s[j] == s[1..][j - 1];
  }

  /** Merging one value succeeds exactly when the two shapes are compatible. */
  lemma {:induction false} MergeValueOk(existing: Config, incoming: Config, p: seq<string>, k: string)
    requires WellFormed(incoming)
    ensures MergeValue(existing, incoming, p, k).Ok? <==> Compatible(existing, incoming)
    decreases incoming
  {
    if existing.Mapping? && incoming.Mapping? {
      MergeIntoOk(existing.entries, incoming.entries, p + [k]);
    }
  }

  /** Merging parsed documents yields a parsed document: keys stay distinct at every
      level. */
  lemma {:induction false} MergeIntoWellFormed(t: seq<Entry>, s: seq<Entry>, p: seq<string>)
    requires WellFormed(Mapping(t)) && WellFormed(Mapping(s)) && MergeInto(t, s, p).Ok?
    ensures WellFormed(Mapping(MergeInto(t, s, p).value))
    decreases s
  {
    if s != [] {
      var k := s[0].key;
      var i := Find(t, k);
      WellFormedTail(s);
      if i < 0 {
        var t1 := t + [s[0]];
        assert forall j :: 0 <= j < |t| ==> t1[j] == t[j];
        assert WellFormed(Mapping(t1));
        MergeIntoWellFormed(t1, s[1..], p);
      } else {
        var v := MergeValue(t[i].value, s[0].value, p, k).value;
        MergeValueWellFormed(t[i].value, s[0].value, p, k);
        var t1 := t[i := Entry(k, v)];
        assert forall j :: 0 <= j < |t| ==> t1[j].key == t[j].key;
        assert WellFormed(Mapping(t1));
        MergeIntoWellFormed(t1, s[1..], p);
      }
    }
  }

  lemma {:induction false} MergeValueWellFormed(existing: Config, incoming: Config, p: seq<string>, k: string)
    requires WellFormed(existing) && WellFormed(incoming) && MergeValue(existing, incoming, p, k).Ok?
    ensures WellFormed(MergeValue(existing, incoming, p, k).value)
    decreases incoming
  {
    match existing
    case Mapping(inner) =>
      MergeIntoWellFormed(inner, incoming.entries, p + [k]);
    case List(xs) =>
      var ys := xs + incoming.items;
      assert forall j :: 0 <= j < |ys| ==> ys[j] in xs || ys[j] in incoming.items;
    case Leaf(_) =>
  }

  /** Source keys the target lacks are appended verbatim, in order. */
  lemma {:induction false} MergeDisjoint(t: seq<Entry>, s: seq<Entry>, p: seq<string>)
    requires UniqueKeys(s)
    requires forall j :: 0 <= j < |s| ==> s[j].key !in Keys(t)
    ensures MergeInto(t, s, p) == Ok(t + s)
    decreases s
  {
    if s != [] {
      var t1 := t + [s[0]];
      assert forall n :: 0 <= n < |t| ==> Keys(t)[n] != s[0].key;
      assert MergeInto(t, s, p) == MergeInto(t1, s[1..], p);
      assert Keys(t1) == Keys(t) + [s[0].key];
      forall j | 0 <= j < |s[1..]|
        ensures s[1..][j].key !in Keys(t1)
      {
        assert s[1..][j] == s[j + 1];
      }
      MergeDisjoint(t1, s[1..], p);
      assert t1 + s[1..] == t + s;
    } else {
      assert t + s == t;
    }
  }

  /** `cfg_merge(cfg, a)` followed by `cfg_merge(cfg, b)`. */
  function MergeThen(t: seq<Entry>, a: seq<Entry>, b: seq<Entry>, p: seq<string>): Result<seq<Entry>, MergeError>
  {
    var mid :- MergeInto(t, a, p);
    MergeInto(mid, b, p)
  }

  /** No key of `a` is a key of `b`. */
  predicate Disjoint(a: seq<Entry>, b: seq<Entry>)
  {
    forall i :: 0 <= i < |a| ==> a[i].key !in Keys(b)
  }

  /** Disjointness is symmetric, and no key is looked up in both. */
  lemma DisjointLookup(a: seq<Entry>, b: seq<Entry>, k: string)
    requires Disjoint(a, b)
    ensures Lookup(a, k).None? || Lookup(b, k).None?
    ensures Disjoint(b, a)
  {
  }

  /** After merging `a`, a key of `b` that `a` lacks looks up as it did before, so `b`
      meets the same values. */
  lemma MergeThenLookup(t: seq<Entry>, a: seq<Entry>, b: seq<Entry>, p: seq<string>, k: string)
    requires UniqueKeys(a) && UniqueKeys(b) && Disjoint(a, b) && MergeThen(t, a, b, p).Ok?
    ensures Lookup(MergeThen(t, a, b, p).value, k) ==
      if Lookup(b, k).Some? then MergedValue(t, b, p, k) else MergedValue(t, a, p, k)
  {
    var mid := MergeInto(t, a, p).value;
    MergeLookup(t, a, p, k);
    MergeLookup(mid, b, p, k);
    DisjointLookup(a, b, k);
  }

  /** Merging `a` first changes nothing `b` meets. */
  lemma MergeThenMergeable(t: seq<Entry>, a: seq<Entry>, b: seq<Entry>, p: seq<string>)
    requires UniqueKeys(a) && Disjoint(a, b) && MergeInto(t, a, p).Ok?
    ensures Mergeable(MergeInto(t, a, p).value, b) <==> Mergeable(t, b)
  {
    var mid := MergeInto(t, a, p).value;
    forall j | 0 <= j < |b|
      ensures Lookup(mid, b[j].key) == Lookup(t, b[j].key)
    {
      MergeLookup(t, a, p, b[j].key);
      DisjointLookup(a, b, b[j].key);
      assert Lookup(b, b[j].key).Some? by { LookupHead(b[j..]); FindSuffix(b, j); }
    }
    MergeableFrame(t, mid, b);
  }

  /** A key of `b[j..]` is found in `b`. */
  lemma FindSuffix(b: seq<Entry>, j: nat)
    requires j < |b|
    ensures Find(b, b[j].key) >= 0
  {
  }

  /** Two merges succeed exactly when each document on its own is compatible with the
      starting configuration. */
  lemma MergeThenOk(t: seq<Entry>, a: seq<Entry>, b: seq<Entry>, p: seq<string>)
    requires WellFormed(Mapping(a)) && WellFormed(Mapping(b)) && Disjoint(a, b)
    ensures MergeThen(t, a, b, p).Ok? <==> Mergeable(t, a) && Mergeable(t, b)
  {
    MergeIntoOk(t, a, p);
    if MergeInto(t, a, p).Ok? {
      MergeIntoOk(MergeInto(t, a, p).value, b, p);
      MergeThenMergeable(t, a, b, p);
    }
  }

  /** Documents without a common key can be merged in either order: both orders succeed
      together, and then every key holds the same value. */
  lemma MergeDisjointCommute(t: seq<Entry>, a: seq<Entry>, b: seq<Entry>, p: seq<string>)
    requires WellFormed(Mapping(a)) && WellFormed(Mapping(b)) && Disjoint(a, b)
    ensures MergeThen(t, a, b, p).Ok? <==> MergeThen(t, b, a, p).Ok?
    ensures MergeThen(t, a, b, p).Ok? ==>
      forall k :: Lookup(MergeThen(t, a, b, p).value, k) == Lookup(MergeThen(t, b, a, p).value, k)
  {
    DisjointLookup(a, b, "");
    MergeThenOk(t, a, b, p);
    MergeThenOk(t, b, a, p);
    if MergeThen(t, a, b, p).Ok? {
      forall k
        ensures Lookup(MergeThen(t, a, b, p).value, k) == Lookup(MergeThen(t, b, a, p).value, k)
      {
        MergeThenLookup(t, a, b, p, k);
        MergeThenLookup(t, b, a, p, k);
        DisjointLookup(a, b, k);
      }
    }
  }

  /** Merging `a + b` in one call is merging `a` and then `b`: `cfg_merge` folds the
      entries one at a time, so a document may be split anywhere. */
  lemma {:induction false} MergeIntoAppend(t: seq<Entry>, a: seq<Entry>, b: seq<Entry>, p: seq<string>)
    ensures MergeInto(t, a + b, p) == MergeThen(t, a, b, p)
    decreases a
  {
    if a == [] {
      assert a + b == b;
    } else {
      var k := a[0].key;
      var i := Find(t, k);
      assert (a + b)[0] == a[0];
      assert (a + b)[1..] == a[1..] + b;
      if i < 0 {
        MergeIntoAppend(t + [a[0]], a[1..], b, p);
      } else if MergeValue(t[i].value, a[0].value, p, k).Ok? {
        var v := MergeValue(t[i].value, a[0].value, p, k).value;
        MergeIntoAppend(t[i := Entry(k, v)], a[1..], b, p);
      }
    }
  }

  /** Grouping does not matter for documents without a common key: merging `b` into the
      result of merging `a` is merging, into the start, the result of merging `b` into
      `a` (which is `a + b`). */
  lemma MergeAssociative(t: seq<Entry>, a: seq<Entry>, b: seq<Entry>, p: seq<string>)
    requires UniqueKeys(b)
    requires forall j :: 0 <= j < |b| ==> b[j].key !in Keys(a)
    ensures MergeInto(a, b, p) == Ok(a + b)
    ensures MergeThen(t, a, b, p) == (var ab :- MergeInto(a, b, p); MergeInto(t, ab, p))
  {
    MergeDisjoint(a, b, p);
    MergeIntoAppend(t, a, b, p);
  }

  /** `main` starts from `{}`: the first fragment is taken as it is. */
  lemma MergeIntoEmpty(s: seq<Entry>, p: seq<string>)
    requires UniqueKeys(s)
    ensures MergeInto([], s, p) == Ok(s)
  {
    MergeDisjoint([], s, p);
    assert [] + s == s;
  }

  /** A failed merge names the enclosing mapping: the '/'-joined path `p + q`, where `q`
      leads through mappings in both the target and the source to two mappings that hold
      one key with values of incompatible shapes. */
  lemma {:induction false} MergeIntoErrorPath(t: seq<Entry>, s: seq<Entry>, p: seq<string>)
    requires WellFormed(Mapping(s)) && MergeInto(t, s, p).Err?
    ensures exists q :: MergeInto(t, s, p).error.at == Text.Join(p + q, "/") && ConflictAt(t, s, q)
    decreases s
  {
    var k := s[0].key;
    var i := Find(t, k);
    var e := MergeInto(t, s, p).error;
    WellFormedTail(s);
    LookupHead(s);
    if i >= 0 && MergeValue(t[i].value, s[0].value, p, k).Err? {
      var ex, inc := t[i].value, s[0].value;
      MergeValueErrorPath(ex, inc, p, k);
      var q :| e.at == Text.Join(p + q, "/") && (q == [] <==> !(ex.Mapping? && inc.Mapping?)) &&
        (q == [] ==> !Compatible(ex, inc)) &&
        (q != [] ==> q[0] == k && ConflictAt(ex.entries, inc.entries, q[1..]));
      assert Lookup(t, k) == Some(ex);
      if q == [] {
        assert Clash(t, s, k);
      } else {
        DescendCons(t, q, ex);
        DescendCons(s, q, inc);
      }
      assert ConflictAt(t, s, q);
    } else {
      var v := if i < 0 then s[0].value else MergeValue(t[i].value, s[0].value, p, k).value;
      var t1 := if i < 0 then t + [s[0]] else t[i := Entry(k, v)];
      assert MergeInto(t, s, p) == MergeInto(t1, s[1..], p);
      MergeIntoErrorPath(t1, s[1..], p);
      var q :| e.at == Text.Join(p + q, "/") && ConflictAt(t1, s[1..], q);
      ConflictFrame(t, t1, v, s, q);
    }
  }

  /** Following a path through a mapping whose first key holds a mapping. */
  lemma DescendCons(es: seq<Entry>, q: seq<string>, v: Config)
    requires q != [] && Lookup(es, q[0]) == Some(v) && v.Mapping?
    ensures Descend(es, q) == Descend(v.entries, q[1..])
  {
  }

  /** A conflict found after the first source entry was merged is one of the original
      target and source: the later keys are distinct from the first one, so the target
      still holds, for them, what it held before. */
  lemma ConflictFrame(t: seq<Entry>, t1: seq<Entry>, v: Config, s: seq<Entry>, q: seq<string>)
    requires s != [] && WellFormed(Mapping(s))
    requires t1 == if Find(t, s[0].key) < 0 then t + [s[0]] else t[Find(t, s[0].key) := Entry(s[0].key, v)]
    requires ConflictAt(t1, s[1..], q)
    ensures ConflictAt(t, s, q)
  {
    var ts, ss := Descend(t1, q).value, Descend(s[1..], q).value;
    var c :| Clash(ts, ss, c);
    if q == [] {
      OtherKey(s, c);
      SameLookup(t, t1, v, s, c);
      assert Clash(t, s, c);
    } else {
      OtherKey(s, q[0]);
      SameLookup(t, t1, v, s, q[0]);
      assert Clash(Descend(t, q).value, Descend(s, q).value, c);
    }
  }

  /** A key the tail of a parsed mapping holds is not its first key, and looks up alike in
      the whole mapping. */
  lemma OtherKey(s: seq<Entry>, c: string)
    requires s != [] && WellFormed(Mapping(s)) && Lookup(s[1..], c).Some?
    ensures c != s[0].key && Lookup(s, c) == Lookup(s[1..], c)
  {
    var j := Find(s[1..], c);
    assert s[1..][j] == s[j + 1];
  }

  /** Merging the first source entry leaves the target's lookups of other keys alone. */
  lemma SameLookup(t: seq<Entry>, t1: seq<Entry>, v: Config, s: seq<Entry>, c: string)
    requires s != [] && c != s[0].key
    requires t1 == if Find(t, s[0].key) < 0 then t + [s[0]] else t[Find(t, s[0].key) := Entry(s[0].key, v)]
    ensures Lookup(t1, c) == Lookup(t, c)
  {
    var i := Find(t, s[0].key);
    if i < 0 {
      LookupAppend(t, s[0], c);
    } else {
      LookupUpdate(t, s[0].key, v, c);
    }
  }

  /** A failed merge of one value names the mapping holding the key when the two values
      are not both mappings, in which case their shapes are incompatible; otherwise the
      conflict lies deeper, below the key. */
  lemma {:induction false} MergeValueErrorPath(existing: Config, incoming: Config, p: seq<string>, k: string)
    requires WellFormed(incoming) && MergeValue(existing, incoming, p, k).Err?
    ensures exists q ::
              && MergeValue(existing, incoming, p, k).error.at == Text.Join(p + q, "/")
              && (q == [] <==> !(existing.Mapping? && incoming.Mapping?))
              && (q == [] ==> !Compatible(existing, incoming))
              && (q != [] ==> q[0] == k && ConflictAt(existing.entries, incoming.entries, q[1..]))
    decreases incoming
  {
    if existing.Mapping? && incoming.Mapping? {
      var q := DeepError(existing, incoming, p, k);
      assert q != [];
    } else {
      ShallowError(existing, incoming, p, k);
      var q: seq<string> := [];
      assert MergeValue(existing, incoming, p, k).error.at == Text.Join(p + q, "/");
    }
  }

  /** Two values that are not both mappings fail at the enclosing path, and only when
      their shapes are incompatible; the error is the one of the four that names the
      existing value's shape, and carries the kind of the other value. */
  lemma ShallowError(existing: Config, incoming: Config, p: seq<string>, k: string)
    requires !(existing.Mapping? && incoming.Mapping?) && MergeValue(existing, incoming, p, k).Err?
    ensures MergeValue(existing, incoming, p, k).error.at == Text.Join(p + [], "/")
    ensures !Compatible(existing, incoming)
    ensures var e := MergeValue(existing, incoming, p, k).error;
      && (existing.Mapping? ==> e.CannotMergeDict? && e.other == KindOf(incoming) && e.other != DictKind)
      && (existing.List? ==> e.CannotExtendList? && e.other == KindOf(incoming) && e.other != ListKind)
      && (existing.Leaf? && incoming.Mapping? ==> e.CannotMergeWithDict? && e.existing == KindOf(existing))
      && (existing.Leaf? && incoming.List? ==> e.CannotMergeWithList? && e.existing == KindOf(existing))
  {
    assert p + [] == p;
  }

  /** Two mappings fail below the key, at a clash both sides lead to. */
  lemma DeepError(existing: Config, incoming: Config, p: seq<string>, k: string) returns (q: seq<string>)
    requires existing.Mapping? && incoming.Mapping? && WellFormed(incoming)
    requires MergeValue(existing, incoming, p, k).Err?
    ensures MergeValue(existing, incoming, p, k).error.at == Text.Join(p + q, "/")
    ensures q != [] && q[0] == k && ConflictAt(existing.entries, incoming.entries, q[1..])
    decreases incoming, 0
  {
    var e := MergeValue(existing, incoming, p, k).error;
    assert e == MergeInto(existing.entries, incoming.entries, p + [k]).error;
    MergeIntoErrorPath(existing.entries, incoming.entries, p + [k]);
    var q1 :| e.at == Text.Join(p + [k] + q1, "/") && ConflictAt(existing.entries, incoming.entries, q1);
    q := [k] + q1;
    Text.AppendAssoc(p, [k], q1);
    assert q[1..] == q1;
  }

  /** `{"pkgs": ["a"]}` merged with `{"pkgs": ["b"]}` gives `{"pkgs": ["a", "b"]}`. */
  lemma ListsConcatenateExample()
    ensures MergeInto([Entry("pkgs", List([Leaf(Str("a"))]))], [Entry("pkgs", List([Leaf(Str("b"))]))], [])
         == Ok([Entry("pkgs", List([Leaf(Str("a")), Leaf(Str("b"))]))])
  {
    var t := [Entry("pkgs", List([Leaf(Str("a"))]))];
    var s := [Entry("pkgs", List([Leaf(Str("b"))]))];
    assert Find(t, "pkgs") == 0;
    assert s[1..] == [];
    var merged := List([Leaf(Str("a")), Leaf(Str("b"))]);
    assert [Leaf(Str("a"))] + [Leaf(Str("b"))] == merged.items;
    assert s[0].key == "pkgs";
    assert Find(t, s[0].key) == 0;
    assert MergeValue(t[0].value, s[0].value, [], "pkgs") == Ok(merged);
    assert t[0 := Entry("pkgs", merged)] == [Entry("pkgs", merged)];
    assert MergeInto(t, s, []) == MergeInto([Entry("pkgs", merged)], [], []);
  }

  /** A later scalar replaces an earlier one. */
  lemma LastScalarWinsExample()
    ensures MergeInto([Entry("user", Leaf(Str("root")))], [Entry("user", Leaf(Str("fred")))], [])
         == Ok([Entry("user", Leaf(Str("fred")))])
  {
    var t := [Entry("user", Leaf(Str("root")))];
    var s := [Entry("user", Leaf(Str("fred")))];
    assert Find(t, "user") == 0;
    assert s[1..] == [];
    assert s[0].key == "user";
    assert Find(t, s[0].key) == 0;
    assert MergeValue(t[0].value, s[0].value, [], "user") == Ok(s[0].value);
    assert t[0 := Entry("user", s[0].value)] == s;
    assert MergeInto(t, s, []) == MergeInto(s, [], []);
  }

  /** `{"a": {"b": []}}` merged with `{"a": {"b": 1}}` reports the list at `a`, the mapping
      holding `b`. */
  lemma NestedConflictExample()
    ensures MergeInto([Entry("a", Mapping([Entry("b", List([]))]))], [Entry("a", Mapping([Entry("b", Leaf(Int(1)))]))], [])
         == Err(CannotExtendList(IntKind, "a"))
  {
    var t := [Entry("a", Mapping([Entry("b", List([]))]))];
    assert Find(t, "a") == 0;
    var inner := [Entry("b", List([]))];
    assert Find(inner, "b") == 0;
    assert Text.Join(["a"], "/") == "a";
    assert [] + ["a"] == ["a"];
  }

  /** A conflict between top-level keys is reported at the empty path. */
  lemma TopLevelConflictExample()
    ensures MergeInto([Entry("pkgs", List([]))], [Entry("pkgs", Mapping([]))], [])
         == Err(CannotExtendList(DictKind, ""))
  {
    var t := [Entry("pkgs", List([]))];
    assert Find(t, "pkgs") == 0;
  }
}
