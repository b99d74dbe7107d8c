/** What the shell reads in the `RUN` lines `DockerGen` writes: each quoted argument comes
    back as one word, and the separators the generator puts between them (`<`, `&&`, `;`,
    the subshell parentheses, `>` and `>>`) come back as operators. */
module Commands {
  import opened Results
  import Text
  import opened Shell
  import opened Docker

  // ---------------------------------------------------------------------------------
  // Operators followed by a blank

  /** A one-character operator followed by a blank ends the word before it and is read as
      itself; a redirection operator must not follow a word of digits directly. */
  lemma LexOperator(c: char, rest: string, cur: Option<string>, acc: seq<Token>)
    requires c == '<' || c == '>' || c == ';' || c == '(' || c == ')'
    requires cur.None? || c == ';' || c == '(' || c == ')'
    ensures Lex([c] + " " + rest, cur, acc) == Lex(rest, None, acc + Flush(cur) + [Operator([c])])
  {
    var s := [c] + " " + rest;
    assert s[0] == c && s[..2] == [c, ' '] && s[1..] == " " + rest;
    assert OperatorAt(s) == [c];
    LexStep(s, cur, acc, Move(1, None, Flush(cur) + [Operator([c])]));
    LexBlank(rest, None, acc + (Flush(cur) + [Operator([c])]));
    assert acc + (Flush(cur) + [Operator([c])]) + Flush(None) == acc + Flush(cur) + [Operator([c])];
  }

  /** `&&` and `>>` followed by a blank after a blank are read as one operator each. */
  lemma LexDoubled(op: string, rest: string, acc: seq<Token>)
    requires op == "&&" || op == ">>"
    ensures Lex(op + " " + rest, None, acc) == Lex(rest, None, acc + [Operator(op)])
  {
    var s := op + " " + rest;
    assert s[0] == op[0] && s[..2] == op && s[2..] == " " + rest;
    assert OperatorAt(s) == op && |op| == 2;
    assert Flush(None) + [Operator(op)] == [Operator(op)];
    assert Step(s, None) == Some(Move(2, None, [Operator(op)]));
    LexStep(s, None, acc, Move(2, None, [Operator(op)]));
    LexBlank(rest, None, acc + [Operator(op)]);
    assert acc + [Operator(op)] + Flush(None) == acc + [Operator(op)];
  }

  /** A backslash before a newline continues the line and reads as nothing. */
  lemma LexContinuation(rest: string, cur: Option<string>, acc: seq<Token>)
    ensures Lex("\\\n" + rest, cur, acc) == Lex(rest, cur, acc)
  {
    var s := "\\\n" + rest;
    assert s[0] == '\\' && s[1] == '\n' && s[2..] == rest;
    LexStep(s, cur, acc, Move(2, cur, []));
    assert acc + [] == acc;
  }

  lemma WordsAppend(a: seq<string>, b: seq<string>)
    ensures Words(a + b) == Words(a) + Words(b)
  {
  }

  // ---------------------------------------------------------------------------------
  // `run`, `install`, `mkdir`, `symlink`

  /** The tokens of `run(args, stdin)` for an argument list: the arguments, then `< stdin`
      when `stdin` is given and not empty. */
  function RunTokens(args: seq<string>, stdin: Option<string>): seq<Token>
  {
    if stdin.Some? && stdin.value != "" then Words(args) + [Operator("<"), Word(stdin.value)]
    else Words(args)
  }

  /** An argument list reads back as its arguments, and a redirection as `<` and the
      input file's name, which no argument can swallow. */
  lemma RunArgvTokens(args: seq<string>, stdin: Option<string>)
    ensures Tokens(RunText(Argv(args), stdin)) == Some(RunTokens(args, stdin))
  {
    if stdin.Some? && stdin.value != "" {
      RedirectedArgvTokens(args, stdin.value);
    } else {
      QuoteArgsRoundTrip(args);
    }
  }

  lemma RedirectedArgvTokens(args: seq<string>, f: string)
    requires f != ""
    ensures Tokens(QuoteArgs(args) + " < " + Quote(f)) == Some(Words(args) + [Operator("<"), Word(f)])
  {
    RedirectText(QuoteArgs(args), Quote(f));
    LexRedirected(args, f);
  }

  /** The argument words, then the redirection operator, then the quoted file name. */
  lemma LexRedirected(args: seq<string>, f: string)
    ensures Lex(QuoteArgs(args) + " " + ("<" + " " + Quote(f)), None, []) == Some(Words(args) + [Operator("<"), Word(f)])
  {
    var q := Quote(f);
    var ws := Words(args);
    var lt := Operator("<");
    LexArgs(args, "<" + " " + q, []);
    assert [] + ws == ws;
    LexRedirection(q, ws);
    LexLastQuoted(f, ws + [lt]);
    Text.AppendAssoc(ws, [lt], [Word(f)]);
    assert [lt] + [Word(f)] == [lt, Word(f)];
  }

  /** `<` and a blank: the operator, with nothing pending before it. */
  lemma LexRedirection(q: string, ws: seq<Token>)
    ensures Lex("<" + " " + q, None, ws) == Lex(q, None, ws + [Operator("<")])
  {
    LexOperator('<', q, None, ws);
    assert ws + Flush(None) + [Operator(['<'])] == ws + [Operator("<")];
  }

  /** The redirection ` < file` as the tokenizer takes it apart. */
  lemma RedirectText(cmd: string, q: string)
    ensures cmd + " < " + q == cmd + " " + ("<" + " " + q)
  {
  }

  /** `install(p1, …, pn)` runs `apt-get install -y --no-install-recommends p1 … pn`, also
      for n = 0. */
  lemma InstallTokens(packages: seq<string>)
    ensures Tokens(QuoteArgs(InstallPrefix + packages)) == Some(Words(InstallPrefix) + Words(packages))
  {
    QuoteArgsRoundTrip(InstallPrefix + packages);
    WordsAppend(InstallPrefix, packages);
  }

  /** `mkdir(path, mode)` runs `mkdir -p [-m mode] path`, each a word of its own. */
  lemma MkdirTokens(path: string, mode: Option<string>)
    ensures mode.None? ==> Tokens(QuoteArgs(MkdirArgs(path, mode))) == Some([Word("mkdir"), Word("-p"), Word(path)])
    ensures mode.Some? ==>
      Tokens(QuoteArgs(MkdirArgs(path, mode))) == Some([Word("mkdir"), Word("-p"), Word("-m"), Word(mode.value), Word(path)])
  {
    if mode.None? {
      MkdirPlainTokens(path);
    } else {
      MkdirModeTokens(path, mode.value);
    }
  }

  lemma MkdirPlainTokens(path: string)
    ensures Tokens(QuoteArgs(MkdirArgs(path, None))) == Some([Word("mkdir"), Word("-p"), Word(path)])
  {
    var xs := MkdirArgs(path, None);
    QuoteArgsRoundTrip(xs);
    assert Words(xs) == [Word(xs[0]), Word(xs[1]), Word(xs[2])];
  }

  lemma MkdirModeTokens(path: string, mode: string)
    ensures Tokens(QuoteArgs(MkdirArgs(path, Some(mode)))) == Some([Word("mkdir"), Word("-p"), Word("-m"), Word(mode), Word(path)])
  {
    var xs := MkdirArgs(path, Some(mode));
    QuoteArgsRoundTrip(xs);
    assert Words(xs) == [Word(xs[0]), Word(xs[1]), Word(xs[2]), Word(xs[3]), Word(xs[4])];
  }

  /** `symlink(src, dest)` runs `ln -sf src dest`. */
  lemma SymlinkTokens(src: string, dest: string)
    ensures Tokens(QuoteArgs(["ln", "-sf", src, dest])) == Some([Word("ln"), Word("-sf"), Word(src), Word(dest)])
  {
    var xs := ["ln", "-sf", src, dest];
    QuoteArgsRoundTrip(xs);
    assert Words(xs) == [Word(xs[0]), Word(xs[1]), Word(xs[2]), Word(xs[3])];
  }

  // ---------------------------------------------------------------------------------
  // `run_multi`

  predicate AllArgv(cmds: seq<Command>)
  {
    forall i :: 0 <= i < |cmds| ==> cmds[i].Argv?
  }

  /** The tokens of argument-list commands chained by `&&`. */
  function Chain(cmds: seq<Command>): seq<Token>
    requires AllArgv(cmds)
  {
    if cmds == [] then []
    else if |cmds| == 1 then Words(cmds[0].args)
    else Words(cmds[0].args) + [Operator("&&")] + Chain(cmds[1..])
  }

  /** `AndThen` is a blank, a line continuation, a blank, `&&` and a blank. */
  lemma AndThenParts(x: string, y: string)
    ensures x + AndThen + y == x + " " + ("\\\n" + (" " + ("&&" + " " + y)))
  {
    assert AndThen == " " + "\\\n" + " " + "&&" + " ";
  }

  lemma {:induction false} LexChain(cmds: seq<Command>, acc: seq<Token>)
    requires AllArgv(cmds) && cmds != []
    ensures Lex(Text.Join(RenderAll(cmds), AndThen), None, acc) == Some(acc + Chain(cmds))
    decreases |cmds|
  {
    if |cmds| == 1 {
      LexOnlyCommand(cmds, acc);
    } else {
      var next := acc + Words(cmds[0].args) + [Operator("&&")];
      assert AllArgv(cmds[1..]);
      LexChain(cmds[1..], next);
      LexChainStep(cmds, acc);
    }
  }

  /** The step of `LexChain`: the first command and its `&&`, then the rest. */
  lemma LexChainStep(cmds: seq<Command>, acc: seq<Token>)
    requires AllArgv(cmds) && |cmds| > 1
    requires var next := acc + Words(cmds[0].args) + [Operator("&&")];
      Lex(Text.Join(RenderAll(cmds[1..]), AndThen), None, next) == Some(next + Chain(cmds[1..]))
    ensures Lex(Text.Join(RenderAll(cmds), AndThen), None, acc) == Some(acc + Chain(cmds))
  {
    var first := Words(cmds[0].args) + [Operator("&&")];
    LexFirstCommand(cmds, acc);
    Text.AppendAssoc(acc, Words(cmds[0].args), [Operator("&&")]);
    Text.AppendAssoc(acc, first, Chain(cmds[1..]));
  }

  lemma LexOnlyCommand(cmds: seq<Command>, acc: seq<Token>)
    requires AllArgv(cmds) && |cmds| == 1
    ensures Lex(Text.Join(RenderAll(cmds), AndThen), None, acc) == Some(acc + Chain(cmds))
  {
    assert Text.Join(RenderAll(cmds), AndThen) == QuoteArgs(cmds[0].args);
    LexArgsEnd(cmds[0].args, acc);
  }

  lemma LexFirstCommand(cmds: seq<Command>, acc: seq<Token>)
    requires AllArgv(cmds) && |cmds| > 1
    ensures Lex(Text.Join(RenderAll(cmds), AndThen), None, acc) ==
      Lex(Text.Join(RenderAll(cmds[1..]), AndThen), None, acc + Words(cmds[0].args) + [Operator("&&")])
  {
    var parts := RenderAll(cmds);
    var args := cmds[0].args;
    var tail := Text.Join(RenderAll(cmds[1..]), AndThen);
    var after := acc + Words(args);
    assert Lex(Text.Join(parts, AndThen), None, acc) == Lex("\\\n" + (" " + ("&&" + " " + tail)), None, after) by {
      assert parts[1..] == RenderAll(cmds[1..]);
      assert Text.Join(parts, AndThen) == QuoteArgs(args) + AndThen + tail;
      AndThenParts(QuoteArgs(args), tail);
      LexArgs(args, "\\\n" + (" " + ("&&" + " " + tail)), acc);
    }
    assert Lex("\\\n" + (" " + ("&&" + " " + tail)), None, after) == Lex("&&" + " " + tail, None, after) by {
      LexContinuation(" " + ("&&" + " " + tail), None, after);
      LexBlank("&&" + " " + tail, None, after);
      assert after + Flush(None) == after;
    }
    LexDoubled("&&", tail, after);
  }

  /** `run_multi` with argument lists runs them one after another, each only if the one
      before succeeded; the line breaks in between are continuations. */
  lemma RunMultiTokens(cmds: seq<Command>)
    requires AllArgv(cmds)
    ensures Tokens(Text.Join(RenderAll(cmds), AndThen)) == Some(Chain(cmds))
  {
    if cmds != [] {
      LexChain(cmds, []);
      assert [] + Chain(cmds) == Chain(cmds);
    } else {
      assert RenderAll(cmds) == [] && Chain(cmds) == [];
      var t := Text.Join(RenderAll(cmds), AndThen);
      assert t == [];
      assert Lex(t, None, []) == Some([] + Flush(None));
      assert [] + Flush(None) == Chain(cmds);
    }
  }

  // ---------------------------------------------------------------------------------
  // `write_lines` and `append_lines`

  /** `echo line` for each line, separated by `;`. */
  function EchoTokens(lines: seq<string>): seq<Token>
    requires lines != []
  {
    if |lines| == 1 then [Word("echo"), Word(lines[0])]
    else [Word("echo"), Word(lines[0]), Operator(";")] + EchoTokens(lines[1..])
  }

  /** The tokens of `_write(dest, lines, append)`: the echoes, in a subshell when there
      is more than one, redirected to `dest`. */
  function WriteTokens(dest: string, lines: seq<string>, append: bool): seq<Token>
    requires lines != []
  {
    var group := if |lines| > 1 then [Operator("(")] + EchoTokens(lines) + [Operator(")")] else EchoTokens(lines);
    group + [Operator(Redirect(append)), Word(dest)]
  }

  lemma LexEcho(e: string, line: string, rest: string, acc: seq<Token>)
    requires e == "echo " + Quote(line)
    ensures Lex(e + rest, None, acc) == Lex(rest, Some(line), acc + [Word("echo")])
  {
    var echo := "echo";
    assert AllSafe(echo);
    assert e + rest == echo + (" " + (Quote(line) + rest));
    LexSafe(echo, " " + (Quote(line) + rest), None, acc);
    ExtendNone(echo);
    LexBlank(Quote(line) + rest, Some(echo), acc);
    LexQuote(line, rest, None, acc + [Word(echo)]);
    ExtendNone(line);
  }

  /** The separator between two echoes. */
  lemma LexSemicolon(rest: string, cur: Option<string>, acc: seq<Token>)
    ensures Lex("; " + rest, cur, acc) == Lex(rest, None, acc + Flush(cur) + [Operator(";")])
  {
    assert "; " + rest == [';'] + " " + rest;
    LexOperator(';', rest, cur, acc);
  }

  lemma {:induction false} LexEchoes(lines: seq<string>, rest: string, acc: seq<Token>)
    requires lines != []
    ensures Lex(Text.Join(Echoes(lines), "; ") + " " + rest, None, acc) == Lex(rest, None, acc + EchoTokens(lines))
    decreases |lines|
  {
    if |lines| == 1 {
      LexLastEcho(lines, rest, acc);
    } else {
      var next := acc + [Word("echo"), Word(lines[0]), Operator(";")];
      LexFirstEcho(lines, rest, acc);
      EchoesTail(lines);
      LexEchoes(lines[1..], rest, next);
      assert next + EchoTokens(lines[1..]) == acc + EchoTokens(lines);
    }
  }

  lemma EchoesTail(lines: seq<string>)
    requires lines != []
    ensures Echoes(lines)[1..] == Echoes(lines[1..])
  {
    assert Echoes(lines) == ["echo " + Shell.Quote(lines[0])] + Echoes(lines[1..]);
  }

  lemma LexLastEcho(lines: seq<string>, rest: string, acc: seq<Token>)
    requires |lines| == 1
    ensures Lex(Text.Join(Echoes(lines), "; ") + " " + rest, None, acc) == Lex(rest, None, acc + EchoTokens(lines))
  {
    var es := Echoes(lines);
    var echoed := acc + [Word("echo")];
    assert Lex(Text.Join(es, "; ") + " " + rest, None, acc) == Lex(" " + rest, Some(lines[0]), echoed) by {
      assert Text.Join(es, "; ") + " " + rest == es[0] + (" " + rest);
      LexEcho(es[0], lines[0], " " + rest, acc);
    }
    LexBlank(rest, Some(lines[0]), echoed);
    assert echoed + Flush(Some(lines[0])) == acc + EchoTokens(lines);
  }

  lemma LexFirstEcho(lines: seq<string>, rest: string, acc: seq<Token>)
    requires |lines| > 1
    ensures Lex(Text.Join(Echoes(lines), "; ") + " " + rest, None, acc) ==
      Lex(Text.Join(Echoes(lines)[1..], "; ") + " " + rest, None, acc + [Word("echo"), Word(lines[0]), Operator(";")])
  {
    var es := Echoes(lines);
    var tail := Text.Join(es[1..], "; ");
    var echoed := acc + [Word("echo")];
    FirstEchoText(es, rest);
    LexEcho(es[0], lines[0], "; " + (tail + " " + rest), acc);
    LexSemicolon(tail + " " + rest, Some(lines[0]), echoed);
    FirstEchoTokens(acc, lines[0]);
  }

  /** The joined echoes are the first echo, the separator, and the joined rest. */
  lemma FirstEchoText(es: seq<string>, rest: string)
    requires |es| > 1
    ensures Text.Join(es, "; ") + " " + rest == es[0] + ("; " + (Text.Join(es[1..], "; ") + " " + rest))
  {
    var tail := Text.Join(es[1..], "; ");
    assert Text.Join(es, "; ") == es[0] + "; " + tail;
    Text.AppendAssoc(es[0], "; ", tail);
    Text.AppendAssoc(es[0], "; " + tail, " " + rest);
    Text.AppendAssoc("; ", tail, " " + rest);
    Text.AppendAssoc(tail, " ", rest);
    Text.AppendAssoc(es[0] + "; " + tail, " ", rest);
  }

  /** The tokens of one echo and the separator after it. */
  lemma FirstEchoTokens(acc: seq<Token>, line: string)
    ensures acc + [Word("echo")] + Flush(Some(line)) + [Operator(";")] == acc + [Word("echo"), Word(line), Operator(";")]
  {
  }

  /** The redirection operator followed by a blank and the quoted destination. */
  lemma LexRedirect(append: bool, dest: string, acc: seq<Token>)
    ensures Lex(Redirect(append) + " " + Quote(dest), None, acc) == Some(acc + [Operator(Redirect(append)), Word(dest)])
  {
    var q := Quote(dest);
    var r := Redirect(append);
    if append {
      LexDoubled(r, q, acc);
    } else {
      assert r == [r[0]];
      LexOperator(r[0], q, None, acc);
      assert acc + Flush(None) + [Operator([r[0]])] == acc + [Operator(r)];
    }
    LexLastQuoted(dest, acc + [Operator(r)]);
    assert acc + [Operator(r)] + [Word(dest)] == acc + [Operator(r), Word(dest)];
  }

  /** `write_lines`/`append_lines` run one `echo` per line, in order, grouped in a subshell
      exactly when there is more than one, with the output going to `dest`, replaced (`>`)
      or appended to (`>>`). */
  lemma WriteCommandTokens(dest: string, lines: seq<string>, append: bool)
    requires lines != []
    ensures Tokens(WriteCommand(dest, lines, append)) == Some(WriteTokens(dest, lines, append))
  {
    if |lines| == 1 {
      SingleWriteTokens(dest, lines, append);
    } else {
      GroupedWriteTokens(dest, lines, append);
    }
  }

  lemma SingleWriteTokens(dest: string, lines: seq<string>, append: bool)
    requires |lines| == 1
    ensures Tokens(WriteCommand(dest, lines, append)) == Some(WriteTokens(dest, lines, append))
  {
    var j := Text.Join(Echoes(lines), "; ");
    var tail := Redirect(append) + " " + Quote(dest);
    assert WriteCommand(dest, lines, append) == j + " " + tail;
    LexEchoes(lines, tail, []);
    LexRedirect(append, dest, [] + EchoTokens(lines));
    assert [] + EchoTokens(lines) + [Operator(Redirect(append)), Word(dest)] == WriteTokens(dest, lines, append);
  }

  lemma GroupShape(j: string, r: string, q: string)
    ensures "( " + j + " )" + " " + r + " " + q == "(" + " " + (j + " " + (")" + " " + (r + " " + q)))
  {
  }

  lemma GroupedWriteTokens(dest: string, lines: seq<string>, append: bool)
    requires |lines| > 1
    ensures Tokens(WriteCommand(dest, lines, append)) == Some(WriteTokens(dest, lines, append))
  {
    var j := Text.Join(Echoes(lines), "; ");
    var tail := Redirect(append) + " " + Quote(dest);
    var echoes := EchoTokens(lines);
    var opening := [Operator("(")];
    var closed := opening + echoes + [Operator(")")];
    assert Tokens(WriteCommand(dest, lines, append)) == Lex(j + " " + (")" + " " + tail), None, opening) by {
      GroupShape(j, Redirect(append), Quote(dest));
      LexOperator('(', j + " " + (")" + " " + tail), None, []);
      assert [] + Flush(None) + [Operator("(")] == opening;
    }
    assert Lex(j + " " + (")" + " " + tail), None, opening) == Lex(tail, None, closed) by {
      LexEchoes(lines, ")" + " " + tail, opening);
      LexOperator(')', tail, None, opening + echoes);
      assert opening + echoes + Flush(None) + [Operator(")")] == closed;
    }
    assert Lex(tail, None, closed) == Some(WriteTokens(dest, lines, append)) by {
      LexRedirect(append, dest, closed);
    }
  }

  // ---------------------------------------------------------------------------------
  // The `RUN` lines as a whole

  /** The tokens of the command of a `RUN` line; `None` for any other line. */
  function RunLineTokens(line: string): Option<seq<Token>>
  {
    var parts := Text.Partition(line, ' ');
    if parts.found && parts.head == "RUN" then Tokens(parts.tail) else None
  }

  lemma RunLine(text: string, ts: seq<Token>)
    requires Tokens(text) == Some(ts)
    ensures RunLineTokens(Instruction("RUN", text)) == Some(ts)
  {
    var keyword := "RUN";
    assert ' ' !in keyword;
    InstructionParts(keyword, text);
  }

  /** The line `run(args, stdin)` appends runs the arguments, redirected from `stdin` when
      that is given and not empty. */
  lemma RunAppendsCommand(g: Gen, args: seq<string>, stdin: Option<string>)
    ensures var r := Run(g, Argv(args), stdin);
      |r.lines| == |g.lines| + 1 && RunLineTokens(r.lines[|g.lines|]) == Some(RunTokens(args, stdin))
  {
    RunArgvTokens(args, stdin);
    RunLine(RunText(Argv(args), stdin), RunTokens(args, stdin));
  }

  /** The line `install(p1, …, pn)` appends runs `apt-get install -y
      --no-install-recommends p1 … pn`. */
  lemma InstallAppendsCommand(g: Gen, packages: seq<string>)
    ensures var r := Install(g, packages);
      |r.lines| == |g.lines| + 1 && RunLineTokens(r.lines[|g.lines|]) == Some(Words(InstallPrefix) + Words(packages))
  {
    InstallTokens(packages);
    RunLine(QuoteArgs(InstallPrefix + packages), Words(InstallPrefix) + Words(packages));
  }

  /** The line `run_multi` appends for argument lists runs them chained by `&&`. */
  lemma RunMultiAppendsCommand(g: Gen, cmds: seq<Command>)
    requires AllArgv(cmds)
    ensures var r := RunMulti(g, cmds);
      |r.lines| == |g.lines| + 1 && RunLineTokens(r.lines[|g.lines|]) == Some(Chain(cmds))
  {
    RunMultiTokens(cmds);
    RunLine(Text.Join(RenderAll(cmds), AndThen), Chain(cmds));
  }

  /** The line `mkdir` appends runs `mkdir -p` with the mode option when a mode is given. */
  lemma MkdirAppendsCommand(g: Gen, path: string, mode: Option<string>)
    ensures var r := Mkdir(g, path, mode);
      |r.lines| == |g.lines| + 1 && RunLineTokens(r.lines[|g.lines|]) == Some(Words(MkdirArgs(path, mode)))
  {
    QuoteArgsRoundTrip(MkdirArgs(path, mode));
    RunLine(QuoteArgs(MkdirArgs(path, mode)), Words(MkdirArgs(path, mode)));
  }

  /** The line `symlink` appends runs `ln -sf src dest`. */
  lemma SymlinkAppendsCommand(g: Gen, src: string, dest: string)
    ensures var r := Symlink(g, src, dest);
      |r.lines| == |g.lines| + 1 && RunLineTokens(r.lines[|g.lines|]) == Some(Words(["ln", "-sf", src, dest]))
  {
    QuoteArgsRoundTrip(["ln", "-sf", src, dest]);
    RunLine(QuoteArgs(["ln", "-sf", src, dest]), Words(["ln", "-sf", src, dest]));
  }

  /** With lines to write, `write_lines` (`append` false) and `append_lines` (`append`
      true) append one line that echoes them into `dest`. */
  lemma WriteAppendsCommand(g: Gen, dest: string, lines: seq<string>, append: bool)
    requires lines != []
    ensures var r := WriteFile(g, dest, lines, append);
      |r.lines| == |g.lines| + 1 && RunLineTokens(r.lines[|g.lines|]) == Some(WriteTokens(dest, lines, append))
  {
    WriteCommandTokens(dest, lines, append);
    RunLine(WriteCommand(dest, lines, append), WriteTokens(dest, lines, append));
  }
}
