/** The pure part of `DockerGen.finish`: the text of the Dockerfile, and for each helper
    the file to write and the permission bits `int(mode, 8)` gives it. Opening, writing
    and `chmod` themselves are outside this model. */
module Finish {
  import opened Results
  import Text
  import PyInt
  import opened Docker
  import Session

  /** `print(line, file=f)` for each line: the line and a newline. */
  function DockerfileText(lines: seq<string>): (r: string)
    ensures |r| >= |lines|
  {
    if lines == [] then "" else lines[0] + "\n" + DockerfileText(lines[1..])
  }

  /** A helper file as `finish` writes it. */
  datatype HelperFile = HelperFile(name: string, content: Bytes, permissions: int)

  /** `int(mode, 8)` raises `ValueError`, whose message quotes the mode text only. */
  datatype FinishError = BadMode(mode: string)

  datatype Output = Output(dockerfile: string, files: seq<HelperFile>)

  /** `int(mode, 8)`. */
  function OctalMode(mode: string): Option<int>
  {
    PyInt.ParseInt(mode, 8)
  }

  /** The helper files in registration order, each mode read by `bits`; the first mode
      `bits` rejects stops `finish`. `Finish` passes `OctalMode`. */
  function HelperFiles(hs: seq<Helper>, bits: string -> Option<int>): Result<seq<HelperFile>, FinishError>
    decreases |hs|
  {
    if hs == [] then Ok([])
    else
      match bits(hs[0].mode)
      case None => Err(BadMode(hs[0].mode))
      case Some(b) =>
        var rest :- HelperFiles(hs[1..], bits);
        Ok([HelperFile(hs[0].name, hs[0].content, b)] + rest)
  }

  function Finish(g: Gen): Result<Output, FinishError>
  {
    var files :- HelperFiles(g.helpers, OctalMode);
    Ok(Output(DockerfileText(g.lines), files))
  }

  predicate ModesParse(hs: seq<Helper>, bits: string -> Option<int>)
  {
    forall i :: 0 <= i < |hs| ==> bits(hs[i].mode).Some?
  }

  // ---------------------------------------------------------------------------------

  /** The Dockerfile of lines added later extends the Dockerfile of the earlier ones. */
  lemma {:induction false} DockerfileAppend(a: seq<string>, b: seq<string>)
    ensures DockerfileText(a + b) == DockerfileText(a) + DockerfileText(b)
    decreases |a|
  {
    if a == [] {
      assert a + b == b;
    } else {
      assert (a + b)[0] == a[0] && (a + b)[1..] == a[1..] + b;
      DockerfileAppend(a[1..], b);
    }
  }

  /** Splitting the Dockerfile at its newlines gives back the lines, and an empty piece
      after the last newline, as long as no line holds a newline itself. */
  lemma {:induction false} DockerfileLines(lines: seq<string>)
    requires forall i :: 0 <= i < |lines| ==> '\n' !in lines[i]
    ensures Text.Split(DockerfileText(lines), '\n') == lines + [""]
    decreases |lines|
  {
    if lines == [] {
      Text.SplitNoSeparator("", '\n');
    } else {
      var rest := DockerfileText(lines[1..]);
      Text.SplitAround(lines[0], rest, '\n');
      DockerfileLines(lines[1..]);
      assert [lines[0]] + (lines[1..] + [""]) == lines + [""];
    }
  }

  /** `finish` succeeds exactly when every helper's mode is an octal numeral; then there
      is one file per helper, in order, with the helper's name and content and the value
      of its mode as permissions. */
  lemma {:induction false} HelperFilesOk(hs: seq<Helper>, bits: string -> Option<int>)
    ensures HelperFiles(hs, bits).Ok? <==> ModesParse(hs, bits)
    ensures HelperFiles(hs, bits).Ok? ==>
      var files := HelperFiles(hs, bits).value;
      && |files| == |hs|
      && forall i :: 0 <= i < |hs| ==> files[i] == HelperFile(hs[i].name, hs[i].content, bits(hs[i].mode).value)
    decreases |hs|
  {
    if hs != [] {
      HelperFilesOk(hs[1..], bits);
      if bits(hs[0].mode).Some? && ModesParse(hs[1..], bits) {
        assert ModesParse(hs, bits) by {
          forall i | 0 <= i < |hs| ensures bits(hs[i].mode).Some? {
            if i > 0 { assert hs[i] == hs[1..][i - 1]; }
          }
        }
        var files := HelperFiles(hs, bits).value;
        forall i | 0 <= i < |hs|
          ensures files[i] == HelperFile(hs[i].name, hs[i].content, bits(hs[i].mode).value)
        {
          if i > 0 { assert files[i] == HelperFiles(hs[1..], bits).value[i - 1] && hs[i] == hs[1..][i - 1]; }
        }
      } else if bits(hs[0].mode).Some? {
        var j :| 0 <= j < |hs[1..]| && bits(hs[1..][j].mode).None?;
        assert hs[j + 1] == hs[1..][j];
      }
    }
  }

  /** `finish` writes the lines of the generator, each followed by a newline, and succeeds
      exactly when every registered mode is an octal numeral; then each helper, in
      registration order, becomes a file with its own name and content and the value of its
      mode as permissions. */
  lemma FinishOk(g: Gen)
    ensures Finish(g).Ok? <==> ModesParse(g.helpers, OctalMode)
    ensures Finish(g).Ok? ==>
      && Finish(g).value.dockerfile == DockerfileText(g.lines)
      && |Finish(g).value.files| == |g.helpers|
      && forall i :: 0 <= i < |g.helpers| ==>
           Finish(g).value.files[i] == HelperFile(g.helpers[i].name, g.helpers[i].content, OctalMode(g.helpers[i].mode).value)
  {
    HelperFilesOk(g.helpers, OctalMode);
  }

  /** The error quotes the mode of the first helper, in registration order, whose mode is
      no octal numeral. */
  lemma {:induction false} HelperFilesError(hs: seq<Helper>, bits: string -> Option<int>, j: nat)
    requires j < |hs| && bits(hs[j].mode).None?
    requires ModesParse(hs[..j], bits)
    ensures HelperFiles(hs, bits) == Err(BadMode(hs[j].mode))
    decreases j
  {
    if j > 0 {
      assert hs[..j][0] == hs[0];
      var before := hs[1..][..j - 1];
      assert ModesParse(before, bits) by {
        forall i | 0 <= i < |before| ensures bits(before[i].mode).Some? {
          assert before[i] == hs[..j][i + 1];
        }
      }
      HelperFilesError(hs[1..], bits, j - 1);
    }
  }

  lemma HelperFilesSingle(h: Helper, bits: string -> Option<int>, b: int)
    requires bits(h.mode) == Some(b)
    ensures HelperFiles([h], bits) == Ok([HelperFile(h.name, h.content, b)])
  {
    assert [h][1..] == [] && [h][0] == h;
    assert HelperFiles([], bits) == Ok([]);
    assert [HelperFile(h.name, h.content, b)] + [] == [HelperFile(h.name, h.content, b)];
  }

  /** A helper registered with the default mode `644` gets permissions 0o644 = 420. */
  lemma DefaultModeBits(h: Helper)
    requires h.mode == DefaultMode
    ensures HelperFiles([h], OctalMode) == Ok([HelperFile(h.name, h.content, 420)])
  {
    assert OctalMode(h.mode) == Some(420) by { PyInt.DefaultModeExample(); }
    HelperFilesSingle(h, OctalMode, 420);
  }

  /** A mode written as the octal digits of `n` gives permissions `n`. */
  lemma OctalModeBits(name: string, content: Bytes, n: nat)
    ensures HelperFiles([Helper(name, content, PyInt.Digits(n, 8))], OctalMode) == Ok([HelperFile(name, content, n)])
  {
    var h := Helper(name, content, PyInt.Digits(n, 8));
    assert OctalMode(h.mode) == Some(n) by { PyInt.OctalRoundTrip(n); }
    HelperFilesSingle(h, OctalMode, n);
  }

  /** A script can only add to the Dockerfile: whatever the later calls, the Dockerfile of
      an earlier state is a prefix of the later one. */
  lemma ReplayExtendsDockerfile(g: Gen, ops: seq<Session.Op>)
    requires Session.Replay(g, ops).Ok?
    ensures var later := DockerfileText(Session.Replay(g, ops).value.lines);
      |DockerfileText(g.lines)| <= |later| && later[..|DockerfileText(g.lines)|] == DockerfileText(g.lines)
  {
    var r := Session.Replay(g, ops).value;
    Session.ReplayAppends(g, ops);
    assert r.lines == g.lines + r.lines[|g.lines|..];
    DockerfileAppend(g.lines, r.lines[|g.lines|..]);
  }
}
