/** The `generate` method of `main`: the configuration handed to the builder is a left
    fold of `cfg_merge` starting from `{}`, first over the configuration files in command
    line order, then over the `--var` overrides in command line order.

    Reading and parsing the files is outside this model: each file arrives as its path and
    the document `json.load` or `yaml.load` produced, Python's `None` (a JSON `null`, an
    empty YAML file) being `Leaf(Null)`. */
module Cli {
  import opened Results
  import Text
  import opened Configuration
  import Overrides

  datatype Source = Source(path: string, document: Config)

  /** `fcfg is not None`: whether a file's document takes part in the merge. */
  predicate Present(doc: Config)
  {
    doc != Leaf(Null)
  }

  datatype LoadError =
    | UnknownExtension                       // `ValueError('Unknown config file extension')`
    | NotAMapping(kind: Kind)                // a document that is no mapping has no `items()`
    | Conflict(error: MergeError)            // a `ValueError` of `cfg_merge`

  predicate KnownExtension(path: string)
  {
    Text.EndsWith(path, ".json") || Text.EndsWith(path, ".yaml")
  }

  /** `cfg_merge(cfg, doc)` at the top level. The `AttributeError` of a document without
      `items()` names only the document's type, not the file it came from. */
  function MergeDocument(cfg: seq<Entry>, doc: Config): Result<seq<Entry>, LoadError>
  {
    if !doc.Mapping? then Err(NotAMapping(KindOf(doc)))
    else
      match MergeInto(cfg, doc.entries, [])
      case Ok(merged) => Ok(merged)
      case Err(e) => Err(Conflict(e))
  }

  /** The loop over `args.config`. */
  function LoadFiles(cfg: seq<Entry>, sources: seq<Source>): Result<seq<Entry>, LoadError>
    decreases |sources|
  {
    if sources == [] then Ok(cfg)
    else
      var src := sources[0];
      if !KnownExtension(src.path) then Err(UnknownExtension)
      else if !Present(src.document) then LoadFiles(cfg, sources[1..])
      else
        var next :- MergeDocument(cfg, src.document);
        LoadFiles(next, sources[1..])
  }

  /** Left fold of `cfg_merge` over a sequence of documents. */
  function MergeAll(cfg: seq<Entry>, docs: seq<Config>): Result<seq<Entry>, LoadError>
    decreases |docs|
  {
    if docs == [] then Ok(cfg)
    else
      var next :- MergeDocument(cfg, docs[0]);
      MergeAll(next, docs[1..])
  }

  /** The `--var` arguments as argparse converts them, one `vardef` each. */
  function VarDefs(args: seq<string>, isFloat: string -> bool): seq<Config>
  {
    seq(|args|, i requires 0 <= i < |args| => Overrides.VarDef(args[i], isFloat))
  }

  /** The documents that take part in the merge: those that are not `None`. */
  function Documents(sources: seq<Source>): seq<Config>
  {
    if sources == [] then []
    else if Present(sources[0].document) then [sources[0].document] + Documents(sources[1..])
    else Documents(sources[1..])
  }

  /** The configuration `main` hands to the builder. */
  function Generate(sources: seq<Source>, vars: seq<string>, isFloat: string -> bool): Result<seq<Entry>, LoadError>
  {
    var cfg :- LoadFiles([], sources);
    MergeAll(cfg, VarDefs(vars, isFloat))
  }

  // ---------------------------------------------------------------------------------

  /** A parsed document merges exactly when it is a mapping whose keys all meet compatible
      values; a document of another type fails with its type, and a conflict with the
      error of `cfg_merge`. */
  lemma MergeDocumentOk(cfg: seq<Entry>, doc: Config)
    requires WellFormed(doc)
    ensures MergeDocument(cfg, doc).Ok? <==> doc.Mapping? && Mergeable(cfg, doc.entries)
    ensures !doc.Mapping? ==> MergeDocument(cfg, doc) == Err(NotAMapping(KindOf(doc)))
    ensures doc.Mapping? && MergeDocument(cfg, doc).Err? ==>
      MergeDocument(cfg, doc) == Err(Conflict(MergeInto(cfg, doc.entries, []).error))
  {
    if doc.Mapping? {
      MergeIntoOk(cfg, doc.entries, []);
    }
  }

  /** With every extension known, the file loop merges exactly the non-empty documents,
      in order, and stops with the same error as the fold at the first document that is
      no mapping or that conflicts. */
  lemma {:induction false} LoadFilesSkipsEmpty(cfg: seq<Entry>, sources: seq<Source>)
    requires forall i :: 0 <= i < |sources| ==> KnownExtension(sources[i].path)
    ensures LoadFiles(cfg, sources) == MergeAll(cfg, Documents(sources))
    decreases |sources|
  {
    if sources != [] {
      var src := sources[0];
      var docs := Documents(sources);
      if Present(src.document) {
        assert docs[0] == src.document && docs[1..] == Documents(sources[1..]);
        var r := MergeDocument(cfg, src.document);
        if r.Ok? {
          LoadFilesSkipsEmpty(r.value, sources[1..]);
        }
      } else {
        LoadFilesSkipsEmpty(cfg, sources[1..]);
      }
    }
  }

  /** A file whose document is `None` is skipped: the configuration is unchanged. */
  lemma NullDocumentSkipped(cfg: seq<Entry>, path: string)
    requires KnownExtension(path)
    ensures LoadFiles(cfg, [Source(path, Leaf(Null))]) == Ok(cfg)
  {
    assert [Source(path, Leaf(Null))][1..] == [];
  }

  /** The fold over a concatenation is the fold over the second part, started from the
      result of the fold over the first. */
  lemma {:induction false} MergeAllAppend(cfg: seq<Entry>, a: seq<Config>, b: seq<Config>)
    ensures MergeAll(cfg, a + b) ==
      match MergeAll(cfg, a)
      case Ok(mid) => MergeAll(mid, b)
      case Err(e) => Err(e)
    decreases |a|
  {
    if a == [] {
      assert a + b == b;
    } else {
      assert (a + b)[0] == a[0] && (a + b)[1..] == a[1..] + b;
      var r := MergeDocument(cfg, a[0]);
      if r.Ok? {
        MergeAllAppend(r.value, a[1..], b);
      }
    }
  }

  /** The loop stops at the first file whose extension is neither `.json` nor `.yaml`,
      once everything before it has merged. */
  lemma {:induction false} LoadFilesUnknownExtension(cfg: seq<Entry>, sources: seq<Source>, i: nat)
    requires i < |sources| && !KnownExtension(sources[i].path)
    requires LoadFiles(cfg, sources[..i]).Ok?
    ensures LoadFiles(cfg, sources) == Err(UnknownExtension)
    decreases i
  {
    if i == 0 {
    } else {
      var src := sources[0];
      assert sources[..i][0] == src && sources[..i][1..] == sources[1..][..i - 1];
      if Present(src.document) {
        var r := MergeDocument(cfg, src.document);
        LoadFilesUnknownExtension(r.value, sources[1..], i - 1);
      } else {
        LoadFilesUnknownExtension(cfg, sources[1..], i - 1);
      }
    }
  }

  /** `main`'s configuration is the left fold of `cfg_merge` from `{}` over the file
      documents and then the overrides, all in command line order. */
  lemma GenerateFold(sources: seq<Source>, vars: seq<string>, isFloat: string -> bool)
    requires forall i :: 0 <= i < |sources| ==> KnownExtension(sources[i].path)
    ensures Generate(sources, vars, isFloat) == MergeAll([], Documents(sources) + VarDefs(vars, isFloat))
  {
    LoadFilesSkipsEmpty([], sources);
    MergeAllAppend([], Documents(sources), VarDefs(vars, isFloat));
  }

  /** The fold of well-formed documents is well formed. */
  lemma {:induction false} MergeAllWellFormed(cfg: seq<Entry>, docs: seq<Config>)
    requires WellFormed(Mapping(cfg))
    requires forall i :: 0 <= i < |docs| ==> WellFormed(docs[i])
    requires MergeAll(cfg, docs).Ok?
    ensures WellFormed(Mapping(MergeAll(cfg, docs).value))
    decreases |docs|
  {
    if docs != [] {
      var d := docs[0];
      MergeIntoWellFormed(cfg, d.entries, []);
      var next := MergeInto(cfg, d.entries, []).value;
      MergeAllWellFormed(next, docs[1..]);
    }
  }

  /** Folding one well-formed mapping into `{}` gives that mapping. */
  lemma MergeAllSingle(d: Config)
    requires d.Mapping? && WellFormed(d)
    ensures MergeAll([], [d]) == Ok(d.entries)
  {
    MergeIntoEmpty(d.entries, []);
    assert [d][1..] == [];
  }

  /** Without configuration files the configuration is the fold over the overrides. */
  lemma OverridesOnly(vars: seq<string>, isFloat: string -> bool)
    ensures Generate([], vars, isFloat) == MergeAll([], VarDefs(vars, isFloat))
  {
  }

  /** One `--var` argument gives one override mapping. */
  lemma VarDefsSingle(arg: string, isFloat: string -> bool)
    ensures VarDefs([arg], isFloat) == [Overrides.VarDef(arg, isFloat)]
  {
  }

  /** With no configuration file, a single override is the whole configuration. */
  lemma SingleOverride(arg: string, isFloat: string -> bool)
    ensures Generate([], [arg], isFloat) == Ok(Overrides.VarDef(arg, isFloat).entries)
  {
    var d := Overrides.VarDef(arg, isFloat);
    OverridesOnly([arg], isFloat);
    VarDefsSingle(arg, isFloat);
    Overrides.VarDefWellFormed(arg, isFloat);
    MergeAllSingle(d);
  }
}
