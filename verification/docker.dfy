/** `DockerGen`: an append-only list of Dockerfile lines and a registry of helper files,
    both in insertion order. Each public operation is a pure transition from one generator
    state to the next; `write_helper` and the operations built on it fail on a name that
    is already registered. The build directory, and every file system effect of the
    class, is outside this model. */
module Docker {
  import opened Results
  import Text
  import Shell

  type Bytes = seq<bv8>

  /** A helper file to be written by `finish`: its contents and its mode as an octal
      string. */
  datatype Helper = Helper(name: string, content: Bytes, mode: string)

  datatype Gen = Gen(lines: seq<string>, helpers: seq<Helper>)

  /** A command as `run` accepts it: a shell string used as it is, or an argument list
      (a Python list or tuple) to be quoted. */
  datatype Command = Verbatim(text: string) | Argv(args: seq<string>)

  datatype HelperError = DuplicateHelper(name: string)

  /** A registered helper: the new state and the path `write_helper` returns. */
  datatype Registered = Registered(gen: Gen, path: string)

  /** `mode` when `copy_file` and `write_helper` are called without one. */
  const DefaultMode: string := "644"

  /** `dest` when `from_tarball` is called without one. */
  const DefaultTarballDest: string := "/"

  /** The prefix `install` puts before the package names. */
  const InstallPrefix: seq<string> := ["apt-get", "install", "-y", "--no-install-recommends"]

  /** A fresh generator: `__init__`. */
  const Empty: Gen := Gen([], [])

  function Names(hs: seq<Helper>): (ns: seq<string>)
    ensures |ns| == |hs|
    ensures forall i :: 0 <= i < |hs| ==> ns[i] == hs[i].name
  {
    if hs == [] then [] else [hs[0].name] + Names(hs[1..])
  }

  /** No two helpers share a name, which `write_helper` maintains. */
  predicate UniqueNames(hs: seq<Helper>)
  {
    forall i, j :: 0 <= i < j < |hs| ==> hs[i].name != hs[j].name
  }

  /** A Dockerfile line: the instruction keyword, a blank, then its argument. */
  function Instruction(keyword: string, argument: string): string
  {
    keyword + " " + argument
  }

  /** An instruction line splits at its first blank back into its keyword and its
      argument. */
  lemma InstructionParts(keyword: string, argument: string)
    requires ' ' !in keyword
    ensures Text.Partition(Instruction(keyword, argument), ' ') == Text.Parts(keyword, true, argument)
  {
    Text.PartitionAt(keyword, ' ', argument);
  }

  /** `put`: one more line. */
  function Put(g: Gen, line: string): (r: Gen)
    ensures r.lines == g.lines + [line] && r.helpers == g.helpers
  {
    g.(lines := g.lines + [line])
  }

  /** The shell text of a command. */
  function Render(cmd: Command): string
  {
    match cmd
    case Verbatim(text) => text
    case Argv(args) => Shell.QuoteArgs(args)
  }

  /** The text after `RUN ` for `run(cmd, stdin)`; an empty `stdin`, like `None`, adds no
      redirection. */
  function RunText(cmd: Command, stdin: Option<string>): string
  {
    if stdin.Some? && stdin.value != "" then Render(cmd) + " < " + Shell.Quote(stdin.value)
    else Render(cmd)
  }

  function FromNamed(g: Gen, image: string): (r: Gen)
    ensures r.lines == g.lines + [Instruction("FROM", image)] && r.helpers == g.helpers
  {
    Put(g, Instruction("FROM", image))
  }

  function FromTarball(g: Gen, tarball: string, dest: string): (r: Gen)
    ensures r.lines == g.lines + [Instruction("FROM", "scratch"), Instruction("ADD", tarball + " " + dest)]
    ensures r.helpers == g.helpers
  {
    Put(Put(g, Instruction("FROM", "scratch")), Instruction("ADD", tarball + " " + dest))
  }

  /** `from_tarball(tarball)` without `dest` adds the tarball at the root of the image. */
  lemma FromTarballDefault(g: Gen, tarball: string)
    ensures FromTarball(g, tarball, DefaultTarballDest).lines == g.lines + ["FROM scratch", "ADD " + tarball + " /"]
  {
    assert Instruction("FROM", "scratch") == "FROM scratch";
    assert Instruction("ADD", tarball + " " + DefaultTarballDest) == "ADD " + tarball + " /";
  }

  function Env(g: Gen, name: string, value: string): (r: Gen)
    ensures r.lines == g.lines + [Instruction("ENV", name + " " + value)] && r.helpers == g.helpers
  {
    Put(g, Instruction("ENV", name + " " + value))
  }

  function Run(g: Gen, cmd: Command, stdin: Option<string>): (r: Gen)
    ensures r.lines == g.lines + [Instruction("RUN", RunText(cmd, stdin))] && r.helpers == g.helpers
  {
    Put(g, Instruction("RUN", RunText(cmd, stdin)))
  }

  function Install(g: Gen, packages: seq<string>): (r: Gen)
    ensures r.lines == g.lines + [Instruction("RUN", Shell.QuoteArgs(InstallPrefix + packages))]
    ensures r.helpers == g.helpers
  {
    Run(g, Argv(InstallPrefix + packages), None)
  }

  /** The rendered commands of `run_multi`, in order. */
  function RenderAll(cmds: seq<Command>): (r: seq<string>)
    ensures |r| == |cmds|
    ensures forall i :: 0 <= i < |cmds| ==> r[i] == Render(cmds[i])
  {
    if cmds == [] then [] else [Render(cmds[0])] + RenderAll(cmds[1..])
  }

  /** The separator of `run_multi`: a line continuation, then `&&`. */
  const AndThen: string := " \\\n && "

  function RunMulti(g: Gen, cmds: seq<Command>): (r: Gen)
    ensures r.lines == g.lines + [Instruction("RUN", Text.Join(RenderAll(cmds), AndThen))]
    ensures r.helpers == g.helpers
  {
    Put(g, Instruction("RUN", Text.Join(RenderAll(cmds), AndThen)))
  }

  /** The argument list of `mkdir`; `mode` is compared with `None`, so an empty mode
      still produces `-m ''`. */
  function MkdirArgs(path: string, mode: Option<string>): seq<string>
  {
    if mode.Some? then ["mkdir", "-p", "-m", mode.value, path] else ["mkdir", "-p", path]
  }

  function Mkdir(g: Gen, path: string, mode: Option<string>): (r: Gen)
    ensures r.lines == g.lines + [Instruction("RUN", Shell.QuoteArgs(MkdirArgs(path, mode)))]
    ensures r.helpers == g.helpers
  {
    Run(g, Argv(MkdirArgs(path, mode)), None)
  }

  function Symlink(g: Gen, src: string, dest: string): (r: Gen)
    ensures r.lines == g.lines + [Instruction("RUN", Shell.QuoteArgs(["ln", "-sf", src, dest]))]
    ensures r.helpers == g.helpers
  {
    Run(g, Argv(["ln", "-sf", src, dest]), None)
  }

  /** One `echo` per line, quoted. */
  function Echoes(lines: seq<string>): (r: seq<string>)
    ensures |r| == |lines|
    ensures forall i :: 0 <= i < |lines| ==> r[i] == "echo " + Shell.Quote(lines[i])
  {
    if lines == [] then [] else ["echo " + Shell.Quote(lines[0])] + Echoes(lines[1..])
  }

  /** The echoes joined by `; `, grouped in a subshell when there is more than one. */
  function EchoGroup(lines: seq<string>): string
  {
    var cmd := Text.Join(Echoes(lines), "; ");
    if |lines| > 1 then "( " + cmd + " )" else cmd
  }

  function Redirect(append: bool): string
  {
    if append then ">>" else ">"
  }

  /** The shell command `_write` runs: the echoes redirected to the quoted destination. */
  function WriteCommand(dest: string, lines: seq<string>, append: bool): string
  {
    EchoGroup(lines) + " " + Redirect(append) + " " + Shell.Quote(dest)
  }

  /** `_write(dest, lines, append)`. */
  function WriteFile(g: Gen, dest: string, lines: seq<string>, append: bool): (r: Gen)
    ensures lines == [] ==> r == g
    ensures lines != [] ==> r.lines == g.lines + [Instruction("RUN", WriteCommand(dest, lines, append))]
    ensures r.helpers == g.helpers
  {
    if lines == [] then g
    else Run(g, Verbatim(WriteCommand(dest, lines, append)), None)
  }

  function WriteLines(g: Gen, dest: string, lines: seq<string>): (r: Gen)
    ensures lines == [] ==> r == g
    ensures lines != [] ==> r.lines == g.lines + [Instruction("RUN", WriteCommand(dest, lines, false))]
    ensures r.helpers == g.helpers
  {
    WriteFile(g, dest, lines, false)
  }

  function AppendLines(g: Gen, dest: string, lines: seq<string>): (r: Gen)
    ensures lines == [] ==> r == g
    ensures lines != [] ==> r.lines == g.lines + [Instruction("RUN", WriteCommand(dest, lines, true))]
    ensures r.helpers == g.helpers
  {
    WriteFile(g, dest, lines, true)
  }

  /** `write_helper(name, content, mode)`: registers the helper under `name` and returns
      its path relative to the build directory. */
  function WriteHelper(g: Gen, name: string, content: Bytes, mode: string): (r: Result<Registered, HelperError>)
    ensures r.Err? <==> name in Names(g.helpers)
    ensures r.Err? ==> r.error == DuplicateHelper(name)
    ensures r.Ok? ==> r.value.gen.lines == g.lines
    ensures r.Ok? ==> r.value.gen.helpers == g.helpers + [Helper(name, content, mode)]
    ensures r.Ok? ==> r.value.path == "helpers/" + name
  {
    if name in Names(g.helpers) then Err(DuplicateHelper(name))
    else Ok(Registered(g.(helpers := g.helpers + [Helper(name, content, mode)]), "helpers/" + name))
  }

  function CopyLine(helper: string, dest: string): string
  {
    Instruction("COPY", helper + " " + dest)
  }

  /** `copy_file(src, dest, mode)`, with the file's bytes passed in as `content`: the
      helper is named after the last component of `src`. */
  function CopyFile(g: Gen, src: string, content: Bytes, dest: string, mode: string): (r: Result<Gen, HelperError>)
    ensures r.Err? <==> Text.Basename(src) in Names(g.helpers)
    ensures r.Err? ==> r.error == DuplicateHelper(Text.Basename(src))
    ensures r.Ok? ==> r.value.lines == g.lines + [CopyLine("helpers/" + Text.Basename(src), dest)]
    ensures r.Ok? ==> r.value.helpers == g.helpers + [Helper(Text.Basename(src), content, mode)]
  {
    var reg :- WriteHelper(g, Text.Basename(src), content, mode);
    Ok(Put(reg.gen, CopyLine(reg.path, dest)))
  }

  /** `copy_as_helper(src, name)`: copies the file to `/helpers/<name>` in the image and
      returns that path; `name` defaults to the last component of `src`, but the helper is
      registered under that last component whatever `name` is. */
  function CopyAsHelper(g: Gen, src: string, content: Bytes, name: Option<string>): (r: Result<Registered, HelperError>)
    ensures var n := if name.None? then Text.Basename(src) else name.value;
      && (r.Err? <==> Text.Basename(src) in Names(g.helpers))
      && (r.Ok? ==> r.value.path == "/helpers/" + n)
      && (r.Ok? ==> r.value.gen.lines == g.lines + [CopyLine("helpers/" + Text.Basename(src), "/helpers/" + n)])
      && (r.Ok? ==> r.value.gen.helpers == g.helpers + [Helper(Text.Basename(src), content, DefaultMode)])
  {
    var n := if name.None? then Text.Basename(src) else name.value;
    var helper := "/helpers/" + n;
    var g1 :- CopyFile(g, src, content, helper, DefaultMode);
    Ok(Registered(g1, helper))
  }

  function Comment(g: Gen, text: string): (r: Gen)
    ensures r.lines == g.lines + [Instruction("#", text)] && r.helpers == g.helpers
  {
    Put(g, Instruction("#", text))
  }
}
