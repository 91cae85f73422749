/** The grammar of sh.c over tokens: what parsecmd builds, and the text that builds a given command.

    `W` is what a token says about a word: its place in the line, or its characters. */
module ShellGrammar {
  const MAXARGS: nat := 10

  /** A symbol of the shell ('+' stands for `>>`), or a word. */
  datatype Tok<W> = Sym(c: char) | Word(w: W)

  /** struct cmd. Both `>` and `>>` give an output redirection. */
  datatype Cmd<W> =
    | Exec(args: seq<W>)
    | Redir(cmd: Cmd<W>, file: W, out: bool)
    | Pipe(left: Cmd<W>, right: Cmd<W>)
    | List(left: Cmd<W>, right: Cmd<W>)
    | Back(cmd: Cmd<W>)

  /** A redirection waiting for its command. */
  datatype Rd<W> = Rd(file: W, out: bool)

  /** What a parsing function leaves: a result and the tokens not yet read, or a panic. */
  datatype Result<T, W> = Ok(value: T, rest: seq<Tok<W>>) | Panic

  /** peek: is the next token one of these symbols? */
  predicate Peek<W>(ts: seq<Tok<W>>, toks: string) {
    ts != [] && ts[0].Sym? && (ts[0].c in toks || (ts[0].c == '+' && '>' in toks))
  }

  function Wrap<W>(cmd: Cmd<W>, rs: seq<Rd<W>>): (r: Cmd<W>)
    decreases |rs|
  {
    if rs == [] then cmd else Redir(Wrap(cmd, rs[..|rs| - 1]), rs[|rs| - 1].file, rs[|rs| - 1].out)
  }

  /** parseredirs */
  function Redirs<W>(rs: seq<Rd<W>>, ts: seq<Tok<W>>): (r: Result<seq<Rd<W>>, W>)
    ensures r.Ok? ==> |r.rest| <= |ts|
    decreases |ts|
  {
    if !Peek(ts, "<>") then Ok(rs, ts)
    else if |ts| < 2 || !ts[1].Word? then Panic
    else Redirs(rs + [Rd(ts[1].w, ts[0].c != '<')], ts[2..])
  }

  /** The loop of parseexec. */
  function Args<W>(args: seq<W>, rs: seq<Rd<W>>, ts: seq<Tok<W>>): (r: Result<Cmd<W>, W>)
    ensures r.Ok? ==> |r.rest| <= |ts|
    decreases |ts|
  {
    if ts == [] || Peek(ts, "|)&;") then Ok(Wrap(Exec(args), rs), ts)
    else if !ts[0].Word? || |args| + 1 >= MAXARGS then Panic
    else
      var more := Redirs(rs, ts[1..]);
      if more.Panic? then Panic else Args(args + [ts[0].w], more.value, more.rest)
  }

  /** parseexec */
  function ParseExec<W>(ts: seq<Tok<W>>): (r: Result<Cmd<W>, W>)
    ensures r.Ok? ==> |r.rest| <= |ts|
    decreases |ts|, 1
  {
    if Peek(ts, "(") then ParseBlock(ts)
    else
      var first := Redirs([], ts);
      if first.Panic? then Panic else Args([], first.value, first.rest)
  }

  /** parseblock */
  function ParseBlock<W>(ts: seq<Tok<W>>): (r: Result<Cmd<W>, W>)
    ensures r.Ok? ==> |r.rest| <= |ts|
    decreases |ts|, 0
  {
    if !Peek(ts, "(") then Panic
    else
      var line := ParseLine(ts[1..]);
      if line.Panic? || !Peek(line.rest, ")") then Panic
      else
        var after := Redirs([], line.rest[1..]);
        if after.Panic? then Panic else Ok(Wrap(line.value, after.value), after.rest)
  }

  /** parsepipe */
  function ParsePipe<W>(ts: seq<Tok<W>>): (r: Result<Cmd<W>, W>)
    ensures r.Ok? ==> |r.rest| <= |ts|
    decreases |ts|, 2
  {
    var left := ParseExec(ts);
    if left.Panic? || !Peek(left.rest, "|") then left
    else
      var right := ParsePipe(left.rest[1..]);
      if right.Panic? then Panic else Ok(Pipe(left.value, right.value), right.rest)
  }

  /** The loop of parseline over `&`. */
  function Backs<W>(cmd: Cmd<W>, ts: seq<Tok<W>>): (r: Result<Cmd<W>, W>)
    ensures r.Ok? && |r.rest| <= |ts|
    decreases |ts|
  {
    if Peek(ts, "&") then Backs(Back(cmd), ts[1..]) else Ok(cmd, ts)
  }

  /** parseline */
  function ParseLine<W>(ts: seq<Tok<W>>): (r: Result<Cmd<W>, W>)
    ensures r.Ok? ==> |r.rest| <= |ts|
    decreases |ts|, 3
  {
    var first := ParsePipe(ts);
    if first.Panic? then Panic
    else
      var cmd := Backs(first.value, first.rest);
      if !Peek(cmd.rest, ";") then cmd
      else
        var more := ParseLine(cmd.rest[1..]);
        if more.Panic? then Panic else Ok(List(cmd.value, more.value), more.rest)
  }

  /** parsecmd: nothing may be left over. */
  function Parse<W>(ts: seq<Tok<W>>): (r: Result<Cmd<W>, W>) {
    var line := ParseLine(ts);
    if line.Ok? && line.rest != [] then Panic else line
  }

  // ---- from commands to tokens ------------------------------------------------------------------------------

  predicate Simple<W>(t: Cmd<W>) {
    t.Exec? || t.Redir?
  }

  function Words<W>(args: seq<W>): (ts: seq<Tok<W>>)
    ensures |ts| == |args| && forall i :: 0 <= i < |args| ==> ts[i] == Word(args[i])
  {
    seq(|args|, i requires 0 <= i < |args| => Word(args[i]))
  }

  /** As one end of a pipe: anything but a simple command goes in parentheses. */
  function ShowExec<W>(t: Cmd<W>): (ts: seq<Tok<W>>)
    decreases t, if Simple(t) then 0 else 4
  {
    match t
    case Exec(args) => Words(args)
    case Redir(cmd, file, out) => ShowExec(cmd) + [Sym(if out then '>' else '<'), Word(file)]
    case _ => [Sym('(')] + ShowLine(t) + [Sym(')')]
  }

  function ShowPipe<W>(t: Cmd<W>): (ts: seq<Tok<W>>)
    decreases t, if t.List? || t.Back? then 5 else 1
  {
    if t.Pipe? then ShowExec(t.left) + [Sym('|')] + ShowPipe(t.right) else ShowExec(t)
  }

  function ShowBack<W>(t: Cmd<W>): (ts: seq<Tok<W>>)
    decreases t, if t.List? then 6 else 2
  {
    if t.Back? then ShowBack(t.cmd) + [Sym('&')] else ShowPipe(t)
  }

  function ShowLine<W>(t: Cmd<W>): (ts: seq<Tok<W>>)
    decreases t, 3
  {
    if t.List? then ShowBack(t.left) + [Sym(';')] + ShowLine(t.right) else ShowBack(t)
  }

  // ---- parsing what was shown -------------------------------------------------------------------------------

  /** Every command has at most nine arguments. */
  predicate Fits<W>(t: Cmd<W>) {
    match t
    case Exec(args) => |args| < MAXARGS
    case Redir(cmd, _, _) => Fits(cmd)
    case Pipe(left, right) => Fits(left) && Fits(right)
    case List(left, right) => Fits(left) && Fits(right)
    case Back(cmd) => Fits(cmd)
  }

  /** What may follow a simple command, a pipe and a line. */
  predicate Ends<W>(ts: seq<Tok<W>>, toks: string) {
    ts == [] || (ts[0].Sym? && ts[0].c in toks)
  }

  function Inner<W>(t: Cmd<W>): (r: Cmd<W>) {
    if t.Redir? then Inner(t.cmd) else t
  }

  function Outer<W>(t: Cmd<W>): (rs: seq<Rd<W>>) {
    if t.Redir? then Outer(t.cmd) + [Rd(t.file, t.out)] else []
  }

  function ShowRds<W>(rs: seq<Rd<W>>): (ts: seq<Tok<W>>) {
    if rs == [] then []
    else [Sym(if rs[0].out then '>' else '<'), Word(rs[0].file)] + ShowRds(rs[1..])
  }

  lemma {:induction false} ShowRdsAppend<W>(rs: seq<Rd<W>>, r: Rd<W>)
    ensures ShowRds(rs + [r]) == ShowRds(rs) + [Sym(if r.out then '>' else '<'), Word(r.file)]
  {
    if rs != [] {
      assert (rs + [r])[1..] == rs[1..] + [r];
      ShowRdsAppend(rs[1..], r);
    } else {
      assert rs + [r] == [r];
    }
  }

  lemma {:induction false} Unwrap<W>(t: Cmd<W>)
    ensures t == Wrap(Inner(t), Outer(t)) && ShowExec(t) == ShowExec(Inner(t)) + ShowRds(Outer(t))
    ensures !Inner(t).Redir? && (Fits(t) ==> Fits(Inner(t)))
  {
    if t.Redir? {
      Unwrap(t.cmd);
      ShowRdsAppend(Outer(t.cmd), Rd(t.file, t.out));
    }
  }

  lemma {:induction false} RedirsRead<W>(done: seq<Rd<W>>, rs: seq<Rd<W>>, rest: seq<Tok<W>>)
    requires !Peek(rest, "<>")
    ensures Redirs(done, ShowRds(rs) + rest) == Ok(done + rs, rest)
    decreases |rs|
  {
    if rs == [] {
      assert ShowRds(rs) + rest == rest && done + rs == done;
    } else {
      var ts := ShowRds(rs) + rest;
      assert ts[2..] == ShowRds(rs[1..]) + rest;
      assert done + rs == done + [rs[0]] + rs[1..];
      RedirsRead(done + [rs[0]], rs[1..], rest);
    }
  }

  /** A word list, then redirections. */
  lemma {:induction false} ArgsRead<W>(done: seq<W>, args: seq<W>, rs: seq<Rd<W>>, rest: seq<Tok<W>>)
    requires args != [] && |done + args| < MAXARGS && Ends(rest, "|)&;")
    ensures Args(done, [], Words(args) + ShowRds(rs) + rest) == Ok(Wrap(Exec(done + args), rs), rest)
    decreases |args|
  {
    var ts := Words(args) + ShowRds(rs) + rest;
    assert ts[0] == Word(args[0]);
    assert ts[1..] == Words(args[1..]) + ShowRds(rs) + rest;
    if |args| == 1 {
      assert ts[1..] == ShowRds(rs) + rest;
      RedirsRead([], rs, rest);
      assert [] + rs == rs && done + [args[0]] == done + args;
    } else {
      assert ts[1] == Word(args[1]);
      assert done + [args[0]] + args[1..] == done + args;
      ArgsRead(done + [args[0]], args[1..], rs, rest);
    }
  }

  lemma ExecRead<W>(args: seq<W>, rs: seq<Rd<W>>, rest: seq<Tok<W>>)
    requires |args| < MAXARGS && Ends(rest, "|)&;")
    ensures ParseExec(Words(args) + ShowRds(rs) + rest) == Ok(Wrap(Exec(args), rs), rest)
  {
    hide ShowRds, Wrap, ParseBlock;
    var ts := Words(args) + ShowRds(rs) + rest;
    if args == [] {
      assert ts == ShowRds(rs) + rest;
      RedirsRead([], rs, rest);
      assert [] + rs == rs;
    } else {
      assert ts[0] == Word(args[0]);
      ArgsRead([], args, rs, rest);
      assert [] + args == args;
    }
  }

  lemma BlockRead<W>(t: Cmd<W>, rs: seq<Rd<W>>, rest: seq<Tok<W>>)
    requires Ends(rest, "|)&;")
    requires var more := [Sym(')')] + (ShowRds(rs) + rest); ParseLine(ShowLine(t) + more) == Ok(t, more)
    ensures ParseExec([Sym('(')] + ShowLine(t) + [Sym(')')] + ShowRds(rs) + rest) == Ok(Wrap(t, rs), rest)
  {
    hide ShowRds, ShowLine, Wrap, ParseLine, Redirs, Args;
    var ts := [Sym('(')] + ShowLine(t) + [Sym(')')] + ShowRds(rs) + rest;
    var more := [Sym(')')] + (ShowRds(rs) + rest);
    assert ts[1..] == ShowLine(t) + more;
    assert more[1..] == ShowRds(rs) + rest;
    RedirsRead([], rs, rest);
    assert [] + rs == rs;
  }

  /** A simple command, or anything in parentheses, is read back. */
  lemma {:induction false} ReadExec<W>(t: Cmd<W>, rest: seq<Tok<W>>)
    requires Fits(t) && Ends(rest, "|)&;")
    ensures ParseExec(ShowExec(t) + rest) == Ok(t, rest)
    decreases t, if Simple(t) then 0 else 4
  {
    hide ParseExec, ParseLine, Fits;
    Unwrap(t);
    var b, rs := Inner(t), Outer(t);
    if b.Exec? {
      FitsArgs(b);
      assert ShowExec(t) + rest == Words(b.args) + ShowRds(rs) + rest;
      ExecRead(b.args, rs, rest);
    } else {
      InnerSmaller(t);
      var more := [Sym(')')] + (ShowRds(rs) + rest);
      ReadLine(b, more);
      assert ShowExec(t) + rest == [Sym('(')] + ShowLine(b) + [Sym(')')] + ShowRds(rs) + rest;
      BlockRead(b, rs, rest);
    }
  }

  lemma {:induction false} InnerSmaller<W>(t: Cmd<W>)
    ensures t.Redir? ==> Inner(t) < t
  {
    if t.Redir? {
      InnerSmaller(t.cmd);
    }
  }

  lemma FitsArgs<W>(t: Cmd<W>)
    requires t.Exec? && Fits(t)
    ensures |t.args| < MAXARGS
  {
  }

  lemma {:induction false} ReadPipe<W>(t: Cmd<W>, rest: seq<Tok<W>>)
    requires Fits(t) && Ends(rest, ")&;")
    ensures ParsePipe(ShowPipe(t) + rest) == Ok(t, rest)
    decreases t, if t.List? || t.Back? then 5 else 1
  {
    hide ParseExec, ShowExec;
    if t.Pipe? {
      var more := [Sym('|')] + (ShowPipe(t.right) + rest);
      assert ShowPipe(t) + rest == ShowExec(t.left) + more;
      ReadExec(t.left, more);
      assert more[1..] == ShowPipe(t.right) + rest;
      ReadPipe(t.right, rest);
    } else {
      ReadExec(t, rest);
    }
  }

  lemma {:induction false} ReadBack<W>(t: Cmd<W>, rest: seq<Tok<W>>)
    requires Fits(t) && Ends(rest, ")&;")
    ensures var ts := ShowBack(t) + rest;
            var first := ParsePipe(ts);
            first.Ok? && Backs(first.value, first.rest) == Backs(t, rest)
    decreases t, if t.List? then 6 else 2
  {
    hide ParsePipe, ShowPipe;
    if t.Back? {
      var more := [Sym('&')] + rest;
      assert ShowBack(t) + rest == ShowBack(t.cmd) + more;
      ReadBack(t.cmd, more);
      assert more[1..] == rest;
    } else {
      ReadPipe(t, rest);
    }
  }

  /** A whole line is read back. */
  lemma {:induction false} ReadLine<W>(t: Cmd<W>, rest: seq<Tok<W>>)
    requires Fits(t) && Ends(rest, ")")
    ensures ParseLine(ShowLine(t) + rest) == Ok(t, rest)
    decreases t, 3
  {
    hide ParsePipe, ShowBack;
    if t.List? {
      var more := [Sym(';')] + (ShowLine(t.right) + rest);
      assert ShowLine(t) + rest == ShowBack(t.left) + more;
      ReadBack(t.left, more);
      assert more[1..] == ShowLine(t.right) + rest;
      ReadLine(t.right, rest);
    } else {
      ReadBack(t, rest);
    }
  }

  /** Every command is what its own tokens parse to. */
  lemma ShowParses<W>(t: Cmd<W>)
    requires Fits(t)
    ensures Parse(ShowLine(t)) == Ok(t, [])
  {
    ReadLine(t, []);
    assert ShowLine(t) + [] == ShowLine(t);
  }
}
