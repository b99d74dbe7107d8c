/** Shell quoting as the generator uses it, and the part of the POSIX shell's token
    recognition (section 2.3 of the Shell Command Language volume of POSIX.1-2017) needed
    to read the generated `RUN` commands back.

    `Quote` follows Python's `shlex.quote`: the empty string becomes `''`, a string made
    only of the characters `[A-Za-z0-9_@%+=:,./-]` is left alone, and anything else is put
    in single quotes with each embedded `'` written as `'"'"'`. */
module Shell {
  import opened Results
  import Text

  /** Characters `shlex.quote` leaves unquoted. */
  predicate SafeChar(c: char)
  {
    ('a' <= c <= 'z') || ('A' <= c <= 'Z') || ('0' <= c <= '9') ||
    c == '_' || c == '@' || c == '%' || c == '+' || c == '=' || c == ':' ||
    c == ',' || c == '.' || c == '/' || c == '-'
  }

  predicate AllSafe(s: string)
  {
    forall i :: 0 <= i < |s| ==> SafeChar(s[i])
  }

  /** Each `'` replaced by `'"'"'` (close, double-quoted quote, reopen). */
  function Escape(s: string): string
  {
    if s == [] then [] else EscapeChar(s[0]) + Escape(s[1..])
  }

  function EscapeChar(c: char): string
  {
    if c == '\'' then "'\"'\"'" else [c]
  }

  /** `shlex.quote`. */
  function Quote(s: string): (r: string)
    ensures |r| > 0
  {
    if s == [] then "''"
    else if AllSafe(s) then s
    else "'" + Escape(s) + "'"
  }

  function QuoteAll(args: seq<string>): (r: seq<string>)
    ensures |r| == |args|
  {
    if args == [] then [] else [Quote(args[0])] + QuoteAll(args[1..])
  }

  /** `DockerGen.quote_args`: the quoted arguments joined by single spaces. */
  function QuoteArgs(args: seq<string>): string
  {
    Text.Join(QuoteAll(args), " ")
  }

  /** A token of a shell command line. */
  datatype Token = Word(text: string) | Operator(op: string)

  /** Each argument as a word token. */
  function Words(args: seq<string>): (r: seq<Token>)
    ensures |r| == |args|
    ensures forall i :: 0 <= i < |args| ==> r[i] == Word(args[i])
  {
    if args == [] then [] else [Word(args[0])] + Words(args[1..])
  }

  function Current(cur: Option<string>): string
  {
    if cur.Some? then cur.value else ""
  }

  /** The word being built, with `s` appended (a quoted empty string still makes a word). */
  function Extend(cur: Option<string>, s: string): Option<string>
  {
    Some(Current(cur) + s)
  }

  function Flush(cur: Option<string>): seq<Token>
  {
    if cur.Some? then [Word(cur.value)] else []
  }

  /** The operator starting `s`, longest match first; "" when the text is not an operator
      this model reads (here-documents among them). */
  function OperatorAt(s: string): string
    requires |s| > 0
  {
    if |s| >= 2 && TwoCharOperator(s[0], s[1]) then s[..2]
    else if |s| >= 2 && s[0] == '<' && s[1] == '<' then ""
    else if OperatorChar(s[0]) then [s[0]]
    else ""
  }

  /** `&&`, `||`, `;;`, `>>`, `<&`, `>&`, `<>` and `>|`. */
  predicate TwoCharOperator(a: char, b: char)
  {
    || (a == '&' && b == '&') || (a == '|' && b == '|') || (a == ';' && b == ';')
    || (a == '>' && b == '>') || (a == '<' && b == '&') || (a == '>' && b == '&')
    || (a == '<' && b == '>') || (a == '>' && b == '|')
  }

  predicate AllDigits(s: string)
  {
    forall i :: 0 <= i < |s| ==> '0' <= s[i] <= '9'
  }

  /** Inside double quotes, characters other than these stand for themselves. */
  predicate PlainInDoubleQuotes(s: string)
  {
    forall i :: 0 <= i < |s| ==> s[i] != '\\' && s[i] != '$' && s[i] != '`'
  }

  predicate OperatorChar(c: char)
  {
    c == '&' || c == '|' || c == ';' || c == '<' || c == '>' || c == '(' || c == ')'
  }

  /** One step of token recognition: how many characters it consumes, the word under
      construction afterwards, and the tokens it completes. */
  datatype Move = Move(used: nat, cur: Option<string>, out: seq<Token>)

  /** The step at the start of `s`; `None` marks text outside the modelled subset
      (expansions, comments, unquoted newlines, here-documents, redirections with a
      file-descriptor number) or an unterminated quote. */
  function Step(s: string, cur: Option<string>): (m: Option<Move>)
    requires s != []
    ensures m.Some? ==> 0 < m.value.used <= |s|
  {
    if s[0] == ' ' || s[0] == '\t' then Some(Move(1, None, Flush(cur)))
    else if s[0] == '\\' then
      if |s| < 2 then None
      else if s[1] == '\n' then Some(Move(2, cur, []))
      else Some(Move(2, Extend(cur, [s[1]]), []))
    else if s[0] == '\'' then
      var k := Text.IndexOf(s[1..], '\'');
      if k < 0 then None else Some(Move(k + 2, Extend(cur, s[1..k + 1]), []))
    else if s[0] == '"' then
      var k := Text.IndexOf(s[1..], '"');
      if k < 0 || !PlainInDoubleQuotes(s[1..k + 1]) then None
      else Some(Move(k + 2, Extend(cur, s[1..k + 1]), []))
    else if OperatorChar(s[0]) then
      var op := OperatorAt(s);
      if op == [] || (cur.Some? && AllDigits(cur.value) && (s[0] == '<' || s[0] == '>')) then None
      else Some(Move(|op|, None, Flush(cur) + [Operator(op)]))
    else if SafeChar(s[0]) then Some(Move(1, Extend(cur, [s[0]]), []))
    else None
  }

  /** Token recognition over the whole text: `cur` is the word under construction and
      `acc` the tokens completed so far. */
  function Lex(s: string, cur: Option<string>, acc: seq<Token>): Option<seq<Token>>
    decreases |s|
  {
    if s == [] then Some(acc + Flush(cur))
    else
      match Step(s, cur)
      case None => None
      case Some(m) => Lex(s[m.used..], m.cur, acc + m.out)
  }

  /** The tokens of a whole command line. */
  function Tokens(s: string): Option<seq<Token>>
  {
    Lex(s, None, [])
  }

  lemma ExtendNone(x: string)
    ensures Extend(None, x) == Some(x)
  {
    assert "" + x == x;
  }

  lemma ExtendTwice(cur: Option<string>, a: string, b: string)
    ensures Extend(Extend(cur, a), b) == Extend(cur, a + b)
  {
    assert Current(cur) + a + b == Current(cur) + (a + b);
  }

  /** A step that consumes `n` characters continues with the rest. */
  lemma LexStep(s: string, cur: Option<string>, acc: seq<Token>, m: Move)
    requires s != [] && Step(s, cur) == Some(m)
    ensures Lex(s, cur, acc) == Lex(s[m.used..], m.cur, acc + m.out)
  {
  }

  /** A blank ends the current word. */
  lemma LexBlank(rest: string, cur: Option<string>, acc: seq<Token>)
    ensures Lex(" " + rest, cur, acc) == Lex(rest, None, acc + Flush(cur))
  {
    var s := " " + rest;
    assert Step(s, cur) == Some(Move(1, None, Flush(cur)));
    LexStep(s, cur, acc, Move(1, None, Flush(cur)));
    assert s[1..] == rest;
  }

  /** Unquoted safe characters extend the current word. */
  lemma {:induction false} LexSafe(w: string, rest: string, cur: Option<string>, acc: seq<Token>)
    requires AllSafe(w) && w != []
    ensures Lex(w + rest, cur, acc) == Lex(rest, Extend(cur, w), acc)
    decreases |w|
  {
    var s := w + rest;
    assert s[0] == w[0] && s[1..] == w[1..] + rest;
    var m := Move(1, Extend(cur, [w[0]]), []);
    assert Step(s, cur) == Some(m);
    LexStep(s, cur, acc, m);
    assert acc + [] == acc;
    if |w| == 1 {
      assert w[1..] + rest == rest;
      assert [w[0]] == w;
    } else {
      LexSafe(w[1..], rest, Extend(cur, [w[0]]), acc);
      ExtendTwice(cur, [w[0]], w[1..]);
      assert [w[0]] + w[1..] == w;
    }
  }

  /** A single-quoted run free of quotes extends the current word by its contents. */
  lemma LexSingleQuoted(p: string, rest: string, cur: Option<string>, acc: seq<Token>)
    requires '\'' !in p
    ensures Lex("'" + p + "'" + rest, cur, acc) == Lex(rest, Extend(cur, p), acc)
  {
    var s := "'" + p + "'" + rest;
    assert s[1..] == p + ['\''] + rest;
    Text.IndexAfter(p, '\'', rest);
    assert s[1..|p| + 1] == p;
    assert s[|p| + 2..] == rest;
    var m := Move(|p| + 2, Extend(cur, p), []);
    assert Step(s, cur) == Some(m);
    LexStep(s, cur, acc, m);
    assert acc + [] == acc;
  }

  /** The double-quoted single quote `"'"` adds a `'` to the current word. */
  lemma LexDoubleQuotedQuote(rest: string, cur: Option<string>, acc: seq<Token>)
    ensures Lex("\"'\"" + rest, cur, acc) == Lex(rest, Extend(cur, "'"), acc)
  {
    var s := "\"'\"" + rest;
    assert s[1..] == "'" + ['"'] + rest;
    Text.IndexAfter("'", '"', rest);
    assert s[1..2] == "'";
    assert s[3..] == rest;
    var m := Move(3, Extend(cur, "'"), []);
    assert Step(s, cur) == Some(m);
    LexStep(s, cur, acc, m);
    assert acc + [] == acc;
  }

  lemma EscapeNoQuote(s: string)
    requires '\'' !in s
    ensures Escape(s) == s
  {
    if s != [] {
      EscapeNoQuote(s[1..]);
      assert [s[0]] + s[1..] == s;
    }
  }

  lemma {:induction false} EscapeAppend(a: string, b: string)
    ensures Escape(a + b) == Escape(a) + Escape(b)
  {
    if a == [] {
      assert a + b == b;
    } else {
      var ab := a + b;
      assert ab[0] == a[0];
      assert ab[1..] == a[1..] + b;
      EscapeAppend(a[1..], b);
      calc {
        Escape(ab);
        EscapeChar(a[0]) + Escape(a[1..] + b);
        EscapeChar(a[0]) + (Escape(a[1..]) + Escape(b));
        (EscapeChar(a[0]) + Escape(a[1..])) + Escape(b);
      }
    }
  }

  /** Splitting a string with a quote at its first quote, in escaped form. */
  lemma EscapeAtQuote(a: string, i: nat)
    requires i < |a| && a[i] == '\'' && '\'' !in a[..i]
    ensures Escape(a) == a[..i] + "'\"'\"'" + Escape(a[i + 1..])
  {
    var p, q := a[..i], a[i + 1..];
    assert a == p + "'" + q;
    EscapeAppend(p + "'", q);
    EscapeAppend(p, "'");
    EscapeNoQuote(p);
    assert Escape("'") == "'\"'\"'";
  }

  lemma Regroup(p: string, e: string, rest: string)
    ensures "'" + (p + "'\"'\"'" + e) + "'" + rest == "'" + p + "'" + ("\"'\"" + ("'" + e + "'" + rest))
  {
  }

  lemma SplitAt(a: string, i: nat)
    requires i < |a| && a[i] == '\''
    ensures a[..i] + "'" + a[i + 1..] == a
  {
  }

  /** The single-quoted form that `Quote` produces reads back as the original text. */
  lemma {:induction false} LexEscaped(a: string, rest: string, cur: Option<string>, acc: seq<Token>)
    ensures Lex("'" + Escape(a) + "'" + rest, cur, acc) == Lex(rest, Extend(cur, a), acc)
    decreases |a|
  {
    if '\'' !in a {
      EscapeNoQuote(a);
      LexSingleQuoted(a, rest, cur, acc);
    } else {
      var i := Text.IndexOf(a, '\'');
      var p, q := a[..i], a[i + 1..];
      EscapeAtQuote(a, i);
      var tail := "'" + Escape(q) + "'" + rest;
      Regroup(p, Escape(q), rest);
      LexSingleQuoted(p, "\"'\"" + tail, cur, acc);
      LexDoubleQuotedQuote(tail, Extend(cur, p), acc);
      LexEscaped(q, rest, Extend(Extend(cur, p), "'"), acc);
      ExtendTwice(cur, p, "'");
      ExtendTwice(cur, p + "'", q);
      SplitAt(a, i);
    }
  }

  /** The empty argument, quoted as `''`, reads back as an empty word. */
  lemma LexEmptyQuote(rest: string, cur: Option<string>, acc: seq<Token>)
    ensures Lex(Quote("") + rest, cur, acc) == Lex(rest, Extend(cur, ""), acc)
  {
    var q := "'";
    LexSingleQuoted([], rest, cur, acc);
    assert Quote("") == q + [] + q;
  }

  /** Whatever follows it, a quoted argument reads back as exactly that argument. */
  lemma LexQuote(a: string, rest: string, cur: Option<string>, acc: seq<Token>)
    ensures Lex(Quote(a) + rest, cur, acc) == Lex(rest, Extend(cur, a), acc)
  {
    if a == [] {
      LexEmptyQuote(rest, cur, acc);
    } else if AllSafe(a) {
      LexSafe(a, rest, cur, acc);
    } else {
      LexEscaped(a, rest, cur, acc);
    }
  }

  /** `quote_args` of a non-empty list: the first quoted argument, then the rest. */
  lemma QuoteArgsCons(args: seq<string>)
    requires |args| >= 1
    ensures |args| == 1 ==> QuoteArgs(args) == Quote(args[0])
    ensures |args| > 1 ==> QuoteArgs(args) == Quote(args[0]) + " " + QuoteArgs(args[1..])
  {
    var q := QuoteAll(args);
    assert q[1..] == QuoteAll(args[1..]);
  }

  lemma Regroup3(a: string, b: string, c: string)
    ensures a + " " + b + " " + c == a + (" " + (b + " " + c))
  {
  }

  lemma WordsCons(acc: seq<Token>, args: seq<string>)
    requires |args| >= 1
    ensures acc + [Word(args[0])] + Words(args[1..]) == acc + Words(args)
  {
  }

  /** Quoted arguments followed by a blank read back as one word per argument. */
  lemma {:induction false} LexArgs(args: seq<string>, rest: string, acc: seq<Token>)
    ensures Lex(QuoteArgs(args) + " " + rest, None, acc) == Lex(rest, None, acc + Words(args))
    decreases |args|
  {
    if args == [] {
      assert QuoteArgs(args) + " " + rest == " " + rest;
      LexBlank(rest, None, acc);
      assert acc + Flush(None) == acc + Words(args);
    } else if |args| == 1 {
      QuoteArgsCons(args);
      assert Quote(args[0]) + " " + rest == Quote(args[0]) + (" " + rest);
      LexQuote(args[0], " " + rest, None, acc);
      LexBlank(rest, Extend(None, args[0]), acc);
      ExtendNone(args[0]);
      assert Words(args) == [Word(args[0])];
    } else {
      QuoteArgsCons(args);
      var tail := QuoteArgs(args[1..]);
      Regroup3(Quote(args[0]), tail, rest);
      LexQuote(args[0], " " + (tail + " " + rest), None, acc);
      LexBlank(tail + " " + rest, Extend(None, args[0]), acc);
      ExtendNone(args[0]);
      LexArgs(args[1..], rest, acc + [Word(args[0])]);
      WordsCons(acc, args);
    }
  }

  /** Token recognition with tokens already collected just prepends them. */
  lemma {:induction false} LexPrefix(s: string, cur: Option<string>, pre: seq<Token>, acc: seq<Token>)
    ensures Lex(s, cur, pre + acc) ==
      (match Lex(s, cur, acc) case Some(ts) => Some(pre + ts) case None => None)
    decreases |s|
  {
    if s == [] {
      assert pre + acc + Flush(cur) == pre + (acc + Flush(cur));
    } else if Step(s, cur).Some? {
      var m := Step(s, cur).value;
      LexPrefix(s[m.used..], m.cur, pre, acc + m.out);
      assert pre + acc + m.out == pre + (acc + m.out);
    }
  }

  /** A quoted argument at the very end reads as its own word. */
  lemma LexLastQuoted(a: string, acc: seq<Token>)
    ensures Lex(Quote(a), None, acc) == Some(acc + [Word(a)])
  {
    assert Quote(a) + "" == Quote(a);
    LexQuote(a, "", None, acc);
    ExtendNone(a);
  }

  /** Quoted arguments at the end of the text read back as one word per argument. */
  lemma {:induction false} LexArgsEnd(args: seq<string>, acc: seq<Token>)
    ensures Lex(QuoteArgs(args), None, acc) == Some(acc + Words(args))
    decreases |args|
  {
    if args == [] {
      assert QuoteArgs(args) == "";
      assert acc + Flush(None) == acc + Words(args);
    } else if |args| == 1 {
      QuoteArgsCons(args);
      LexLastQuoted(args[0], acc);
      assert Words(args) == [Word(args[0])];
    } else {
      LexArgsEnd(args[1..], acc + [Word(args[0])]);
      LexArgsEndStep(args, acc);
    }
  }

  /** The step of `LexArgsEnd`: the first quoted argument becomes a word, given that the
      rest reads back. */
  lemma LexArgsEndStep(args: seq<string>, acc: seq<Token>)
    requires |args| > 1
    requires Lex(QuoteArgs(args[1..]), None, acc + [Word(args[0])]) == Some(acc + [Word(args[0])] + Words(args[1..]))
    ensures Lex(QuoteArgs(args), None, acc) == Some(acc + Words(args))
  {
    var tail := QuoteArgs(args[1..]);
    QuoteArgsCons(args);
    Text.AppendAssoc(Quote(args[0]), " ", tail);
    LexQuote(args[0], " " + tail, None, acc);
    ExtendNone(args[0]);
    LexBlank(tail, Some(args[0]), acc);
    assert Flush(Some(args[0])) == [Word(args[0])];
    WordsCons(acc, args);
  }

  /** `quote_args` round-trips through the shell's token recognition. */
  lemma QuoteArgsRoundTrip(args: seq<string>)
    ensures Tokens(QuoteArgs(args)) == Some(Words(args))
  {
    LexArgsEnd(args, []);
    assert [] + Words(args) == Words(args);
  }

  /** A single quoted argument reads back as one word. */
  lemma QuoteRoundTrip(a: string)
    ensures Tokens(Quote(a)) == Some([Word(a)])
  {
    QuoteArgsRoundTrip([a]);
    QuoteArgsCons([a]);
    assert [a][0] == a;
    assert Words([a]) == [Word(a)];
  }
}
