/** A build script's calls on a `DockerGen`, as data: each call is an `Op`, and a script
    is the sequence of its calls, replayed in order until the first exception. */
module Session {
  import opened Results
  import Text
  import opened Docker

  datatype Op =
    | FromNamedOp(image: string)
    | FromTarballOp(tarball: string, dest: string)
    | EnvOp(name: string, value: string)
    | InstallOp(packages: seq<string>)
    | RunOp(cmd: Command, stdin: Option<string>)
    | RunMultiOp(cmds: seq<Command>)
    | MkdirOp(dir: string, dirMode: Option<string>)
    | SymlinkOp(src: string, dest: string)
    | WriteLinesOp(dest: string, lines: seq<string>)
    | AppendLinesOp(dest: string, lines: seq<string>)
    | WriteHelperOp(helper: string, content: Bytes, mode: string)
    | CopyFileOp(src: string, content: Bytes, dest: string, mode: string)
    | CopyAsHelperOp(src: string, content: Bytes, helperName: Option<string>)
    | CommentOp(text: string)

  function Execute(g: Gen, op: Op): Result<Gen, HelperError>
  {
    match op
    case FromNamedOp(image) => Ok(FromNamed(g, image))
    case FromTarballOp(tarball, dest) => Ok(FromTarball(g, tarball, dest))
    case EnvOp(name, value) => Ok(Env(g, name, value))
    case InstallOp(packages) => Ok(Install(g, packages))
    case RunOp(cmd, stdin) => Ok(Run(g, cmd, stdin))
    case RunMultiOp(cmds) => Ok(RunMulti(g, cmds))
    case MkdirOp(path, mode) => Ok(Mkdir(g, path, mode))
    case SymlinkOp(src, dest) => Ok(Symlink(g, src, dest))
    case WriteLinesOp(dest, lines) => Ok(WriteLines(g, dest, lines))
    case AppendLinesOp(dest, lines) => Ok(AppendLines(g, dest, lines))
    case WriteHelperOp(name, content, mode) =>
      var reg :- WriteHelper(g, name, content, mode);
      Ok(reg.gen)
    case CopyFileOp(src, content, dest, mode) => CopyFile(g, src, content, dest, mode)
    case CopyAsHelperOp(src, content, name) =>
      var reg :- CopyAsHelper(g, src, content, name);
      Ok(reg.gen)
    case CommentOp(text) => Ok(Comment(g, text))
  }

  /** Run the calls in order; the first exception ends the script. */
  function Replay(g: Gen, ops: seq<Op>): Result<Gen, HelperError>
    decreases |ops|
  {
    if ops == [] then Ok(g)
    else
      var next :- Execute(g, ops[0]);
      Replay(next, ops[1..])
  }

  // ---------------------------------------------------------------------------------
  // Reference tables: what each call adds

  /** How many Dockerfile lines a call adds. */
  function LinesAdded(op: Op): nat
  {
    match op
    case FromTarballOp(_, _) => 2
    case WriteLinesOp(_, lines) => if lines == [] then 0 else 1
    case AppendLinesOp(_, lines) => if lines == [] then 0 else 1
    case WriteHelperOp(_, _, _) => 0
    case _ => 1
  }

  /** The name a call registers a helper under, if it registers one. */
  function HelperName(op: Op): Option<string>
  {
    match op
    case WriteHelperOp(name, _, _) => Some(name)
    case CopyFileOp(src, _, _, _) => Some(Text.Basename(src))
    case CopyAsHelperOp(src, _, _) => Some(Text.Basename(src))
    case _ => None
  }

  // ---------------------------------------------------------------------------------

  /** A call appends exactly `LinesAdded(op)` lines and at most one helper, and keeps
      everything that was there. */
  lemma ExecuteAppends(g: Gen, op: Op)
    requires Execute(g, op).Ok?
    ensures var r := Execute(g, op).value;
      && |r.lines| == |g.lines| + LinesAdded(op)
      && r.lines[..|g.lines|] == g.lines
      && |r.helpers| == |g.helpers| + (if HelperName(op).Some? then 1 else 0)
      && r.helpers[..|g.helpers|] == g.helpers
  {
    var r := Execute(g, op).value;
    assert (g.lines + r.lines[|g.lines|..])[..|g.lines|] == g.lines;
    assert (g.helpers + r.helpers[|g.helpers|..])[..|g.helpers|] == g.helpers;
  }

  /** A call fails exactly when it registers a helper under a name already taken. */
  lemma ExecuteFails(g: Gen, op: Op)
    ensures Execute(g, op).Err? <==> HelperName(op).Some? && HelperName(op).value in Names(g.helpers)
    ensures Execute(g, op).Err? ==> Execute(g, op).error == DuplicateHelper(HelperName(op).value)
  {
  }

  /** The helper a call registers is the one its `HelperName` names. */
  lemma ExecuteRegisters(g: Gen, op: Op)
    requires Execute(g, op).Ok? && HelperName(op).Some?
    ensures Execute(g, op).value.helpers[|g.helpers|].name == HelperName(op).value
  {
  }

  /** Replaying a script never removes or rewrites a line or a helper. */
  lemma {:induction false} ReplayAppends(g: Gen, ops: seq<Op>)
    requires Replay(g, ops).Ok?
    ensures var r := Replay(g, ops).value;
      && |g.lines| <= |r.lines| && r.lines[..|g.lines|] == g.lines
      && |g.helpers| <= |r.helpers| && r.helpers[..|g.helpers|] == g.helpers
    decreases |ops|
  {
    if ops != [] {
      var next := Execute(g, ops[0]).value;
      ExecuteAppends(g, ops[0]);
      ReplayAppends(next, ops[1..]);
      var r := Replay(g, ops).value;
      assert r.lines[..|g.lines|] == r.lines[..|next.lines|][..|g.lines|];
      assert r.helpers[..|g.helpers|] == r.helpers[..|next.helpers|][..|g.helpers|];
    }
  }

  /** A call keeps the helper names distinct. */
  lemma ExecuteUniqueNames(g: Gen, op: Op)
    requires UniqueNames(g.helpers) && Execute(g, op).Ok?
    ensures UniqueNames(Execute(g, op).value.helpers)
  {
    ExecuteAppends(g, op);
    var hs := Execute(g, op).value.helpers;
    if HelperName(op).Some? {
      ExecuteRegisters(g, op);
      assert hs == g.helpers + [hs[|g.helpers|]];
      forall i | 0 <= i < |g.helpers|
        ensures hs[i].name != hs[|g.helpers|].name
      {
        assert Names(g.helpers)[i] == g.helpers[i].name;
      }
    } else {
      assert hs == g.helpers;
    }
  }

  /** Whatever the script, the helper registry never holds two helpers of one name. */
  lemma {:induction false} ReplayUniqueNames(g: Gen, ops: seq<Op>)
    requires UniqueNames(g.helpers) && Replay(g, ops).Ok?
    ensures UniqueNames(Replay(g, ops).value.helpers)
    decreases |ops|
  {
    if ops != [] {
      ExecuteUniqueNames(g, ops[0]);
      ReplayUniqueNames(Execute(g, ops[0]).value, ops[1..]);
    }
  }

  /** A build script run on a fresh generator never registers two helpers of one name. */
  lemma ScriptUniqueNames(ops: seq<Op>)
    requires Replay(Empty, ops).Ok?
    ensures UniqueNames(Replay(Empty, ops).value.helpers)
  {
    ReplayUniqueNames(Empty, ops);
  }

  /** A script split in two runs as the first part followed by the second. */
  lemma {:induction false} ReplayAppend(g: Gen, a: seq<Op>, b: seq<Op>)
    ensures Replay(g, a + b) ==
      match Replay(g, a)
      case Ok(mid) => Replay(mid, b)
      case Err(e) => Err(e)
    decreases |a|
  {
    if a == [] {
      assert a + b == b;
    } else {
      assert (a + b)[0] == a[0] && (a + b)[1..] == a[1..] + b;
      var r := Execute(g, a[0]);
      if r.Ok? {
        ReplayAppend(r.value, a[1..], b);
      }
    }
  }

  /** Registering the same name twice fails, and the second call's exception ends the
      script with the registry as the first call left it. */
  lemma DuplicateHelperFails(g: Gen, name: string, c1: Bytes, m1: string, c2: Bytes, m2: string)
    requires name !in Names(g.helpers)
    ensures Replay(g, [WriteHelperOp(name, c1, m1), WriteHelperOp(name, c2, m2)]) == Err(DuplicateHelper(name))
  {
    var ops := [WriteHelperOp(name, c1, m1), WriteHelperOp(name, c2, m2)];
    var g1 := WriteHelper(g, name, c1, m1).value.gen;
    assert Names(g1.helpers)[|g.helpers|] == name;
    assert ops[1..][0] == WriteHelperOp(name, c2, m2);
  }
}
