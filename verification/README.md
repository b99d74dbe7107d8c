# iisysgen in Dafny

This project models the core of `iisysgen`, a generator that writes a Dockerfile for an
operating-system image. It has two parts.

**Configuration.** `cfg_merge` folds one nested configuration tree into another:
- mappings merge key by key;
- lists concatenate;
- a scalar replaces a scalar;
- any other mix of shapes raises `ValueError`.

`vardef` turns a `--var a.b.c=value` argument into a singleton nested mapping. It reads the
value as a base-0 integer, then as a float, and otherwise keeps it as a string. `main` builds
the configuration as a left fold of `cfg_merge` from `{}`: first over the configuration files,
then over the overrides, both in command line order.

**The `DockerGen` accumulator.** It holds an append-only list of Dockerfile lines and a registry
of helper files keyed by name. Every public operation appends exactly shaped lines or
registers one helper. Registering a name twice is the single error. `finish` renders the lines
as the Dockerfile and reads each helper's mode as an octal numeral.

`iisysgen.py` is an older single-file copy of the same code. Its `cfg_merge`, `vardef` and
`DockerGen` are textually the same as those in `iisysgen/cmd.py` and `iisysgen/docker.py`,
except that it has no `run_multi`. One model covers both copies. The rows below cite one copy
per member. The correspondences are:
- `iisysgen.py:19-131` matches `iisysgen/docker.py:18-136`, with lines 49-53 (`run_multi`)
  absent from the old copy;
- `iisysgen.py:138-153` matches `iisysgen/cmd.py:10-25`;
- `iisysgen.py:179-200` matches `iisysgen/cmd.py:53-74`;
- `iisysgen.py:217-242` matches `iisysgen/cmd.py:92-117`.

## Modules

| file | module | what it holds |
|---|---|---|
| results.dfy | `Results` | `Option`, and `Result` with early return (`:-`) |
| text.dfy | `Text` | `str.partition`, `str.split`/`join` on one character, `endswith`, `os.path.basename` |
| pyint.dfy | `PyInt` | `int(s, base)` for ASCII input, and the digits of a number |
| shell.dfy | `Shell` | `shlex.quote`, `quote_args`, and a POSIX tokenizer subset to read quoted text back |
| config.dfy | `Configuration` | configuration trees and `cfg_merge` |
| overrides.dfy | `Overrides` | `vardef` and `path2dict` |
| cli.dfy | `Cli` | the configuration fold of `main` |
| docker.dfy | `Docker` | the generator state and every line-emitting operation |
| commands.dfy | `Commands` | what the shell reads back from each generated `RUN` line |
| session.dfy | `Session` | a build script as a sequence of calls, and the invariants it keeps |
| finish.dfy | `Finish` | the Dockerfile text and the helper files `finish` writes |

### Choices the code decides

The code settles these points, and the model does what the code does:
- **Error path.** The code reports the `/`-joined path of the mapping that holds the
  conflicting key, not the path of the key itself. The path grows only when the merge
  descends into a mapping on both sides.
- **Four merge errors.** The code raises `ValueError` from four places, each naming the types
  involved. The model has four errors, one for each `raise`, each carrying those kinds.
- **Key order matters.** Mappings are insertion-ordered, as a Python `dict` is. That order
  decides which conflict is reported first and where new keys are placed.
- **`stdin` is used as a truth value.** An empty `stdin` adds no redirection.
- **`mode` and `name` are compared with `None`.** `mkdir` with an empty mode still passes
  `-m ''`. `copy_as_helper` with an empty name returns `/helpers/`.
- **Non-mapping documents.** A configuration file whose document is not a mapping (a list, for
  instance) fails, because it has no `items()`; the `AttributeError` names the document's type
  but not the file. The model reports this as `NotAMapping` with that type.
- **`None` documents.** A file whose document is `None` (a JSON `null`, an empty YAML file)
  is skipped by `fcfg is not None`. The model writes Python's `None` as `Leaf(Null)` and skips
  exactly that document.
- **Errors carry what the exceptions carry.** The unknown-extension `ValueError` names no
  file, and the `ValueError` of `int(mode, 8)` quotes only the mode text, so
  `UnknownExtension` has no fields and `BadMode` holds only the mode.

## Model

| member | source | states |
|---|---|---|
| Configuration.MergeIntoOk | iisysgen/cmd.py:92-117 | the merge of a well-formed source succeeds exactly when each key the target already holds meets a value of the same shape: mapping with mapping, recursively; list with list; scalar with scalar |
| Configuration.MergeValueOk | iisysgen/cmd.py:96-115 | merging one value into an existing one succeeds exactly when the shapes are compatible |
| Configuration.MergeLookup | iisysgen/cmd.py:94-117 | after a successful merge, each key maps to: the target's value if the source lacks the key; the source's value if the target lacks it; the combined value otherwise (recursive merge for mappings, concatenation for lists, the source scalar for scalars) |
| Configuration.MergeKeyOrder | iisysgen/cmd.py:94-95 | the merged mapping keeps the target's keys in place and appends the source's new keys in source order, each once |
| Configuration.MergeDisjoint | iisysgen/cmd.py:116-117 | when no source key is in the target, the result is the target followed by the source entries, unchanged |
| Configuration.MergeIntoEmpty | iisysgen/cmd.py:116-117 | merging into `{}` yields the source itself |
| Configuration.MergeIntoWellFormed | iisysgen/cmd.py:92-117 | merging keeps keys unique at every level |
| Configuration.MergeValueWellFormed | iisysgen/cmd.py:96-115 | the merged value of one key is well formed |
| Configuration.MergeIntoErrorPath | iisysgen/cmd.py:99-112 | a failing merge reports the `/`-joined path `p + q` of a mapping reached by `q` through mappings in both the target and the source, and those two mappings hold one key with values of incompatible shapes |
| Configuration.ShallowError | iisysgen/cmd.py:97-112 | when the two values are not both mappings, a failed merge is reported at the enclosing path, the shapes are incompatible, and the error is the one for the existing value's shape: a mapping or a list names the other value's kind, a scalar names its own kind against a mapping or a list |
| Configuration.MergeValueErrorPath | iisysgen/cmd.py:99-112 | a failing merge of one value reports the enclosing path when the two values are not both mappings, and then their shapes are incompatible; when both are mappings the path grows by the key and leads, through mappings on both sides, to a clash |
| Configuration.MergeDisjointCommute | iisysgen/cmd.py:92-117 | two documents without a common key merge in either order: both orders succeed together, and then every key holds the same value |
| Configuration.MergeIntoAppend | iisysgen/cmd.py:92-117 | merging the concatenation of two entry sequences in one call gives the same result or error as merging the first and then the second |
| Configuration.MergeAssociative | iisysgen/cmd.py:92-117 | for documents `a`, `b` without a common key, merging `b` into `a` succeeds with `a` followed by `b`, and merging `a` then `b` into a configuration equals merging that combined document into it, result or error |
| Configuration.MergeThenOk | iisysgen/cmd.py:92-117 | merging two documents without a common key, one after the other, succeeds exactly when each is compatible with the starting configuration on its own |
| Configuration.ListsConcatenateExample | iisysgen.py:227-231 | list plus list is the concatenation in order, with no de-duplication |
| Configuration.LastScalarWinsExample | iisysgen.py:238-240 | a scalar replaces a scalar |
| Configuration.NestedConflictExample | iisysgen.py:222-231 | an integer against a nested list fails, and the error names the enclosing mapping `a` |
| Configuration.TopLevelConflictExample | iisysgen.py:227-230 | a mapping against a top-level list fails, with the empty path |
| Configuration.Fresh | iisysgen/cmd.py:116-117 | the new keys are exactly those not seen before, each once |
| Configuration.Find | iisysgen/cmd.py:95-96 | the position of the first entry with the key, or -1 when no entry has it |
| Overrides.PathToDict | iisysgen/cmd.py:20-24 | `path2dict` yields a singleton mapping whose key holds no `.` |
| Overrides.PathToDictNest | iisysgen/cmd.py:20-24 | `path2dict` nests one singleton mapping per `.`-separated segment, outermost first |
| Overrides.NestGet | iisysgen/cmd.py:20-24 | following the segments through the nested mapping reaches the value |
| Overrides.PathToDictGet | iisysgen/cmd.py:20-24 | the segments rejoined by `.` give back the name, and following them through `path2dict` reaches the value |
| Overrides.NestWellFormed | iisysgen/cmd.py:20-24 | the nested mapping is well formed |
| Overrides.Coerce | iisysgen/cmd.py:13-19 | the value is an integer exactly when `int(v, 0)` accepts it, then with that value; otherwise a float exactly when `float` accepts it; otherwise the raw string |
| Overrides.VarDefSplit | iisysgen/cmd.py:10-25 | `vardef` splits at the first `=`: the name before it is nested on `.`, and the text after it is coerced |
| Overrides.VarDefNoValue | iisysgen/cmd.py:12 | with no `=`, the whole argument is the name and the value is the coerced empty string |
| Overrides.VarDefWellFormed | iisysgen/cmd.py:10-25 | every override is a well-formed configuration |
| Overrides.VarDefOneKey | iisysgen.py:138-153 | `name=value` with a plain name is a one-entry mapping |
| Overrides.VarDefTwoKeys | iisysgen.py:138-153 | `outer.inner=value` nests two singleton mappings |
| Overrides.UserNameExample | iisysgen/cmd.py:11 | `user.name=Fred` is `{'user': {'name': 'Fred'}}` |
| Overrides.HexOverrideExample | iisysgen/cmd.py:14 | `count=0x10` gives the integer 16 |
| Overrides.NotAnInteger | iisysgen/cmd.py:13-15 | `Fred` is not an integer |
| PyInt.DecimalRoundTrip | iisysgen/cmd.py:14 | `int(str(n), 0) == n` for every integer `n` |
| PyInt.OctalRoundTrip | iisysgen/docker.py:129 | `int(oct_digits(n), 8) == n` for every natural `n` |
| PyInt.PlainParse | iisysgen/cmd.py:14 | without blanks or a sign, `int` gives the magnitude or fails with it |
| PyInt.HexPrefixExample | iisysgen/cmd.py:14 | base 0 reads a `0x` prefix |
| PyInt.LeadingZeroExample | iisysgen/cmd.py:14 | base 0 refuses a decimal with a leading zero, so `010` stays a string or float |
| PyInt.DefaultModeExample | iisysgen/docker.py:129 | the default mode `644` is 420 |
| PyInt.DigitsValueCorrect | iisysgen/docker.py:129 | the digits of `n` in any base evaluate back to `n` |
| Cli.GenerateFold | iisysgen/cmd.py:53-74 | with known extensions, the configuration, or the error, is that of the left fold of `cfg_merge` from `{}` over the file documents that are not `None` and then the overrides, in command line order, whatever the documents' types |
| Cli.LoadFilesSkipsEmpty | iisysgen/cmd.py:55-70 | with known extensions, the file loop merges exactly the documents that are not `None`, in order, and fails as the fold does on a document that is no mapping or that conflicts |
| Cli.NullDocumentSkipped | iisysgen/cmd.py:59-61 | a file whose document is `None` leaves the configuration unchanged |
| Cli.LoadFilesUnknownExtension | iisysgen/cmd.py:71-72 | once the earlier files have merged, the first path ending neither in `.json` nor in `.yaml` stops the run with the unknown-extension error |
| Cli.MergeAllAppend | iisysgen.py:179-200 | the fold over two parts is the fold over the second, started where the first ended, and an error stops it |
| Cli.MergeAllWellFormed | iisysgen.py:199-200 | folding well-formed documents keeps the configuration well formed |
| Cli.MergeAllSingle | iisysgen/cmd.py:54-61 | one document folded into `{}` is that document |
| Cli.SingleOverride | iisysgen/cmd.py:73-74 | with no file and one override, the configuration is that override |
| Cli.MergeDocumentOk | iisysgen/cmd.py:61 | merging a parsed document succeeds exactly when it is a mapping whose shared keys meet compatible values; a document of another type fails with its type, a conflict with `cfg_merge`'s error |
| Text.Partition | iisysgen/cmd.py:12 | `partition` splits at the first separator, or returns the whole text and two empties |
| Text.SplitJoin | iisysgen/cmd.py:21-23 | segments free of the separator come back from splitting their join |
| Text.JoinSplit | iisysgen/cmd.py:21-23 | joining the split pieces gives back the text |
| Text.SplitPiecesLackSeparator | iisysgen/cmd.py:21-23 | no segment holds the separator |
| Text.Basename | iisysgen/docker.py:80 | the base name is the suffix after the last `/`, and contains no `/` |
| Shell.QuoteArgsRoundTrip | iisysgen/docker.py:104-105 | a shell reading `quote_args(args)` gets back exactly the words `args`, in order |
| Shell.QuoteRoundTrip | iisysgen/docker.py:46 | a shell reading `quote(a)` gets back the single word `a` |
| Shell.LexQuote | iisysgen/docker.py:46 | `quote(a)` followed by anything is read as the characters of `a` |
| Docker.FromNamed | iisysgen/docker.py:18-20 | appends exactly `FROM image`; helpers unchanged |
| Docker.FromTarball | iisysgen/docker.py:22-25 | appends exactly `FROM scratch` and then `ADD tarball dest`; helpers unchanged |
| Docker.FromTarballDefault | iisysgen/docker.py:22-25 | without `dest` the tarball is added at `/` |
| Docker.Env | iisysgen/docker.py:27-28 | appends exactly `ENV name value`; helpers unchanged |
| Docker.Run | iisysgen/docker.py:41-47 | appends exactly `RUN` and the rendered command, with ` < quote(stdin)` only for a non-empty `stdin`; helpers unchanged |
| Docker.Install | iisysgen/docker.py:30-33 | appends one `RUN` line of the quoted `apt-get` prefix and the packages, even with no package |
| Docker.RunMulti | iisysgen/docker.py:49-53 | appends one `RUN` line of the rendered commands joined by a continuation and `&&` |
| Docker.Mkdir | iisysgen/docker.py:55-59 | appends one `RUN mkdir -p [-m mode] path` line |
| Docker.Symlink | iisysgen/docker.py:61-62 | appends one `RUN ln -sf src dest` line |
| Docker.WriteFile | iisysgen/docker.py:70-76 | with no lines the state is unchanged; otherwise one `RUN` line holding the echoes, `>` or `>>`, and the quoted destination |
| Docker.WriteLines | iisysgen/docker.py:64-65 | with no lines the state is unchanged; otherwise one `RUN` line of the echoes redirected with `>` to the quoted destination |
| Docker.AppendLines | iisysgen/docker.py:67-68 | with no lines the state is unchanged; otherwise one `RUN` line of the echoes redirected with `>>` to the quoted destination |
| Docker.Echoes | iisysgen/docker.py:73 | one `echo quote(line)` per line, in order |
| Docker.WriteHelper | iisysgen/docker.py:93-99 | fails exactly on a registered name, leaving everything unchanged; otherwise adds exactly that helper, keeps the lines, and returns `helpers/name` |
| Docker.CopyFile | iisysgen/docker.py:78-83 | registers the content under the base name of `src`; on success appends `COPY helpers/<basename> dest`, and on a duplicate appends nothing |
| Docker.CopyAsHelper | iisysgen/docker.py:85-91 | returns `/helpers/` followed by `name`, or by the base name when `name` is `None`; the registry key is the base name either way |
| Docker.Comment | iisysgen/docker.py:101-102 | appends exactly `# text`; helpers unchanged |
| Docker.Put | iisysgen/docker.py:111-113 | one more line, nothing else |
| Docker.Names | iisysgen/docker.py:95 | the registered names, in registration order |
| Docker.RenderAll | iisysgen/docker.py:51-52 | each command rendered as `run` would, in order |
| Docker.InstructionParts | iisysgen/docker.py:20 | a line splits at its first blank back into the keyword and its argument |
| Commands.RunArgvTokens | iisysgen/docker.py:41-47 | the shell reads a `run` of an argument list as those words, followed by `<` and the `stdin` word when there is one |
| Commands.InstallTokens | iisysgen/docker.py:30-33 | the shell reads `apt-get install -y --no-install-recommends` and then the packages, in order |
| Commands.MkdirTokens | iisysgen/docker.py:55-59 | the shell reads `mkdir -p path`, or `mkdir -p -m mode path` |
| Commands.SymlinkTokens | iisysgen/docker.py:61-62 | the shell reads `ln -sf src dest` |
| Commands.RunMultiTokens | iisysgen/docker.py:49-53 | the shell reads the argument-list commands of `run_multi` as their words separated by `&&` |
| Commands.WriteCommandTokens | iisysgen/docker.py:70-76 | the shell reads `echo line` for each line, separated by `;`; the echoes are grouped in `( )` iff there is more than one line; then the redirection and the destination follow |
| Commands.LexEchoes | iisysgen/docker.py:73 | the joined echoes are read as one `echo` per line, in order |
| Commands.RunLine | iisysgen/docker.py:47 | a `RUN` line yields the tokens of its command text |
| Commands.RunAppendsCommand | iisysgen/docker.py:41-47 | the line `run` appends is a `RUN` instruction the shell reads as the arguments and the redirection |
| Commands.InstallAppendsCommand | iisysgen.py:31-34 | the line `install` appends reads as the `apt-get` prefix and the packages |
| Commands.RunMultiAppendsCommand | iisysgen/docker.py:49-53 | the line `run_multi` appends reads as the commands chained by `&&` |
| Commands.MkdirAppendsCommand | iisysgen.py:50-54 | the line `mkdir` appends reads as its argument list |
| Commands.SymlinkAppendsCommand | iisysgen.py:56-57 | the line `symlink` appends reads as its argument list |
| Commands.WriteAppendsCommand | iisysgen.py:59-71 | the line `write_lines`/`append_lines` appends reads as the echoes and the redirection |
| Session.ExecuteAppends | iisysgen.py:19-100 | every call appends exactly its own number of lines and at most one helper, and keeps all earlier lines and helpers |
| Session.ExecuteFails | iisysgen.py:88-94 | a call fails exactly when it registers a name already taken, and the error names it |
| Session.ExecuteRegisters | iisysgen/docker.py:78-99 | the helper a call registers carries the name that call is documented to use |
| Session.ExecuteUniqueNames | iisysgen/docker.py:93-99 | a call keeps helper names distinct |
| Session.ReplayAppends | iisysgen/docker.py:107-113 | a whole script only ever appends lines and helpers |
| Session.ReplayUniqueNames | iisysgen/docker.py:95-97 | for any script, the registry never holds two helpers with one name |
| Session.ScriptUniqueNames | iisysgen/cmd.py:77-78 | a build script run on the fresh generator `main` creates never registers two helpers with one name |
| Session.ReplayAppend | iisysgen/cmd.py:77-78 | a script split in two runs as the first part followed by the second, and an exception ends it |
| Session.DuplicateHelperFails | iisysgen.py:88-94 | registering the same name twice fails at the second call, whatever the contents |
| Finish.FinishOk | iisysgen/docker.py:118-129 | `finish` renders the lines, and succeeds exactly when every mode is octal; then each helper becomes a file with its name, its content, and its mode's value as permissions, in registration order |
| Finish.HelperFilesOk | iisysgen/docker.py:123-129 | the helper files exist exactly when every mode parses; one per helper, in order, with name, content and parsed mode |
| Finish.HelperFilesError | iisysgen/docker.py:125-129 | `finish` fails with the mode of the first helper, in registration order, whose mode does not parse |
| Finish.DockerfileLines | iisysgen.py:115-117 | for lines without a newline of their own (so no `run_multi` line of two or more commands), splitting the Dockerfile at newlines gives back the lines, in order, plus an empty piece after the final newline |
| Finish.DockerfileAppend | iisysgen/docker.py:120-122 | the Dockerfile of two runs of lines is the first Dockerfile followed by the second |
| Finish.ReplayExtendsDockerfile | iisysgen/docker.py:118-122 | the Dockerfile of an earlier state is a prefix of the Dockerfile of any later state |
| Finish.DefaultModeBits | iisysgen/docker.py:93 | a helper with the default mode gets permissions 0o644 |
| Finish.OctalModeBits | iisysgen/docker.py:129 | a mode written as the octal digits of `n` gives permissions `n` |
| Finish.HelperFilesSingle | iisysgen/docker.py:125-129 | one helper with a readable mode gives one file with that permission |

## Left out

- File system effects are not modelled. These are creating the build directory in
  `__init__`, `xopen`, reading the source file in `copy_file`, writing the Dockerfile and the
  helpers, and `os.chmod`. `copy_file` receives the file's bytes as a parameter.
- `finish` writes the Dockerfile before it parses any mode, and writes earlier helpers before
  a bad mode raises. The model returns only the error, because what remains on disk is a file
  system effect.
- `finish` does not check that a parsed mode is in the range `os.chmod` accepts.
- The helper registry is a sequence in registration order, not a `dict`.
  Because names are unique (`Session.ReplayUniqueNames`), the two hold the same information.
- Aliasing is not modelled. `cfg_merge` inserts source lists and dicts by reference and
  mutates the target before an error is raised. The model returns the whole merged result or
  the error.
- Argument parsing (`argparse`), JSON and YAML parsing, the YAML `ImportError`, and
  `find_builder`/`import_module` are not modelled. Each configuration file arrives as its path
  and the document it produced.
- Configuration keys are strings. Documents with non-string keys are not modelled.
- Configuration values are the JSON types: mappings, lists, strings, integers, floats,
  booleans and `None`. The further values `yaml.load` can produce (`date` and `datetime`
  timestamps, `!!binary` bytes, `!!set` values) are not modelled, and `Configuration.Kind`
  has no name for their types. `cfg_merge` treats them as scalars: a scalar replaces them,
  and they fail against a mapping or a list with an error naming their type.
- Overrides.Coerce: whether `float(v)` accepts a string is a parameter (`isFloat`), and a
  float keeps its text, because floating point is not modelled.
- PyInt.ParseInt follows `int(s, base)` for ASCII input only. Unicode digits and Unicode
  whitespace are not modelled.
- PyInt.ParseInt has no limit on the number of digits. Python 3.11 and later (and 3.10.7)
  reject `int(s)` for a decimal literal of more than 4300 digits, and `str(n)` for so large
  an `n`, unless `sys.set_int_max_str_digits` raises the limit. Under those versions
  `--var x=` with 4301 decimal digits becomes a float, where `Overrides.Coerce` gives an
  integer, and `PyInt.DecimalRoundTrip` holds only below 10^4300.
  The code does not set the limit.
- Shell.Quote: `shlex.quote` is not part of this model's sources. It is given the Python
  standard library's behaviour:
  - the empty string becomes `''`;
  - a string of only the characters `A-Za-z0-9_@%+=:,./-` stays as it is;
  - anything else is put in single quotes, with each `'` written as `'"'"'`.
- Shell.Lex covers only the part of POSIX shell tokenizing that the generated commands use:
  blanks, unquoted words, single quotes, `"'"`, line continuations and the operators. It does
  not cover expansions.
- Commands: the token lemmas describe how a shell reads the text after `RUN `. Docker's own
  line splitting comes first and is not modelled: Docker ends an instruction at an unescaped
  newline, and `shlex.quote` leaves a newline as it is. So for an argument, line or path
  holding a newline (`write_lines(p, ["a\nb"])`, say) the lemmas hold of the text but not of
  what Docker runs; they are meant for newline-free arguments, as `Finish.DockerfileLines`
  is.
- Commands.RunMultiTokens is stated for commands given as argument lists. A command given as
  a string is shell text chosen by the caller, used verbatim, and not tokenized here.
- `DockerGen.nl` is not modelled. It appends the string `"\n"`, and `finish` prints it
  followed by `print`'s own newline, so each call gives two blank lines in the Dockerfile.
  Such a line holds a newline, which `Finish.DockerfileLines` excludes through its requires.
- The `export` subcommand and the `-x` flag of `iisysgen.py` (lines 204-207) are not
  modelled. They call a method `DockerGen` does not have, and `gen` is unbound in the
  `export` branch.
- `os.path.join` for helper and Dockerfile paths is not modelled. `os.path.basename` is the
  suffix after the last `/`.
- `setup.py` is packaging metadata.
