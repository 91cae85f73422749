/** The shell's grammar as a set of rules, and parsecmd as a recognizer of exactly that grammar.

    `IsLine(ts, t)` says that the tokens `ts` can be read as the command `t`: it only takes the tokens apart, in all
    ways there are, and does not look ahead. */
module ShellSyntax {
  import opened ShellGrammar

  // ---- the rules --------------------------------------------------------------------------------------------

  /** `<` redirects input; `>` and `>>` redirect output. */
  predicate RedirTok<W>(t: Tok<W>, out: bool) {
    t.Sym? && (if out then t.c == '>' || t.c == '+' else t.c == '<')
  }

  /** `t` is `base` with the redirections `ts`, the last one outermost. */
  ghost predicate IsAfter<W>(ts: seq<Tok<W>>, base: Cmd<W>, t: Cmd<W>)
    decreases |ts|
  {
    if ts == [] then t == base
    else
      var n := |ts| - 2;
      n >= 0 && t.Redir? && RedirTok(ts[n], t.out) && ts[n + 1] == Word(t.file) && IsAfter(ts[..n], base, t.cmd)
  }

  /** The arguments of a simple command, and the command without the last of them. */
  function ArgsOf<W>(t: Cmd<W>): (args: seq<W>) {
    match t
    case Exec(args) => args
    case Redir(cmd, _, _) => ArgsOf(cmd)
    case _ => []
  }

  function DropArg<W>(t: Cmd<W>): (r: Cmd<W>) {
    match t
    case Exec(args) => Exec(if args == [] then [] else args[..|args| - 1])
    case Redir(cmd, file, out) => Redir(DropArg(cmd), file, out)
    case _ => t
  }

  /** A simple command: words and redirections in any order. A word after a redirection sign is a file, and any other an
      argument, of which there are fewer than ten. */
  ghost predicate IsSimple<W>(ts: seq<Tok<W>>, t: Cmd<W>)
    decreases |ts|
  {
    if ts == [] then t == Exec([])
    else
      var n := |ts| - 1;
      && ts[n].Word?
      && if n > 0 && ts[n - 1].Sym? then
           t.Redir? && RedirTok(ts[n - 1], t.out) && t.file == ts[n].w && IsSimple(ts[..n - 1], t.cmd)
         else
           var args := ArgsOf(t);
           0 < |args| < 10 && args[|args| - 1] == ts[n].w && IsSimple(ts[..n], DropArg(t))
  }

  /** `t` without its `n` outermost redirections. */
  function Inner<W>(t: Cmd<W>, n: int): (r: Cmd<W>) {
    if n > 0 && t.Redir? then Inner(t.cmd, n - 1) else t
  }

  /** A line in parentheses, and redirections of all of it. */
  ghost predicate IsBlock<W>(ts: seq<Tok<W>>, t: Cmd<W>)
    decreases |ts|, 1
  {
    exists k :: BlockAt(ts, t, k)
  }

  /** The line ends at token `k`. */
  ghost predicate BlockAt<W>(ts: seq<Tok<W>>, t: Cmd<W>, k: int)
    decreases |ts|, 0
  {
    && 0 < k < |ts| && ts[0] == Sym('(') && ts[k] == Sym(')')
    && var u := Inner(t, (|ts| - k - 1) / 2);
       IsLine(ts[1..k], u) && IsAfter(ts[k + 1..], u, t)
  }

  ghost predicate IsExec<W>(ts: seq<Tok<W>>, t: Cmd<W>)
    decreases |ts|, 2
  {
    IsSimple(ts, t) || IsBlock(ts, t)
  }

  ghost predicate IsPipe<W>(ts: seq<Tok<W>>, t: Cmd<W>)
    decreases |ts|, 3
  {
    IsExec(ts, t) || exists k :: PipeAt(ts, t, k)
  }

  /** The first command ends at token `k`. */
  ghost predicate PipeAt<W>(ts: seq<Tok<W>>, t: Cmd<W>, k: int)
    decreases |ts|, 2
  {
    t.Pipe? && 0 <= k < |ts| && ts[k] == Sym('|') && IsExec(ts[..k], t.left) && IsPipe(ts[k + 1..], t.right)
  }

  ghost predicate IsBack<W>(ts: seq<Tok<W>>, t: Cmd<W>)
    decreases |ts|, 4
  {
    || IsPipe(ts, t)
    || (t.Back? && ts != [] && ts[|ts| - 1] == Sym('&') && IsBack(ts[..|ts| - 1], t.cmd))
  }

  ghost predicate IsLine<W>(ts: seq<Tok<W>>, t: Cmd<W>)
    decreases |ts|, 5
  {
    IsBack(ts, t) || exists k :: ListAt(ts, t, k)
  }

  /** The first command ends at token `k`. */
  ghost predicate ListAt<W>(ts: seq<Tok<W>>, t: Cmd<W>, k: int)
    decreases |ts|, 4
  {
    t.List? && 0 <= k < |ts| && ts[k] == Sym(';') && IsBack(ts[..k], t.left) && IsLine(ts[k + 1..], t.right)
  }

  // ---- what is read follows the rules -----------------------------------------------------------------------

  lemma AfterMore<W>(ts: seq<Tok<W>>, base: Cmd<W>, t: Cmd<W>, s: Tok<W>, w: W, out: bool)
    requires IsAfter(ts, base, t) && RedirTok(s, out)
    ensures IsAfter(ts + [s, Word(w)], base, Redir(t, w, out))
  {
    assert (ts + [s, Word(w)])[..|ts|] == ts;
  }

  lemma SimpleRedir<W>(ts: seq<Tok<W>>, t: Cmd<W>, s: Tok<W>, w: W, out: bool)
    requires IsSimple(ts, t) && RedirTok(s, out)
    ensures IsSimple(ts + [s, Word(w)], Redir(t, w, out))
  {
    assert (ts + [s, Word(w)])[..|ts|] == ts;
  }

  lemma {:induction false} WrapArg<W>(args: seq<W>, w: W, rs: seq<Rd<W>>)
    ensures var t := Wrap(Exec(args + [w]), rs); ArgsOf(t) == args + [w] && DropArg(t) == Wrap(Exec(args), rs)
    decreases |rs|
  {
    if rs == [] {
      assert (args + [w])[..|args|] == args;
    } else {
      WrapArg(args, w, rs[..|rs| - 1]);
    }
  }

  lemma SimpleArg<W>(ts: seq<Tok<W>>, args: seq<W>, w: W, rs: seq<Rd<W>>)
    requires IsSimple(ts, Wrap(Exec(args), rs)) && |args| + 1 < 10
    ensures IsSimple(ts + [Word(w)], Wrap(Exec(args + [w]), rs))
  {
    WrapArg(args, w, rs);
    assert (ts + [Word(w)])[..|ts|] == ts;
  }

  lemma {:induction false} WrapMore<W>(t: Cmd<W>, rs: seq<Rd<W>>, r: Rd<W>)
    ensures Wrap(t, rs + [r]) == Redir(Wrap(t, rs), r.file, r.out)
  {
    assert (rs + [r])[..|rs|] == rs;
  }

  /** `rest` is what is left of `ts` after its first `|ts| - |rest|` tokens. */
  ghost predicate Suffix<W>(ts: seq<Tok<W>>, rest: seq<Tok<W>>) {
    |rest| <= |ts| && rest == ts[|ts| - |rest|..]
  }

  function Read<W>(ts: seq<Tok<W>>, rest: seq<Tok<W>>): (r: seq<Tok<W>>)
    requires |rest| <= |ts|
  {
    ts[..|ts| - |rest|]
  }

  lemma SuffixTrans<W>(ts: seq<Tok<W>>, n: nat, rest: seq<Tok<W>>, p: seq<Tok<W>>)
    requires n <= |ts| && Suffix(ts[n..], rest)
    ensures Suffix(ts, rest) && p + ts[..n] + Read(ts[n..], rest) == p + Read(ts, rest)
    ensures Read(ts, rest)[..n] == ts[..n] && Read(ts, rest)[n..] == Read(ts[n..], rest)
  {
  }

  ghost predicate IsSoFar<W>(p: seq<Tok<W>>, base: Cmd<W>, t: Cmd<W>, simple: bool) {
    if simple then IsSimple(p, t) else IsAfter(p, base, t)
  }

  lemma SoFarMore<W>(p: seq<Tok<W>>, base: Cmd<W>, rs: seq<Rd<W>>, s: Tok<W>, w: W, out: bool, simple: bool)
    requires IsSoFar(p, base, Wrap(base, rs), simple) && RedirTok(s, out)
    ensures IsSoFar(p + [s, Word(w)], base, Wrap(base, rs + [Rd(w, out)]), simple)
  {
    hide IsSimple, IsAfter, Wrap;
    WrapMore(base, rs, Rd(w, out));
    if simple {
      SimpleRedir(p, Wrap(base, rs), s, w, out);
    } else {
      AfterMore(p, base, Wrap(base, rs), s, w, out);
    }
  }

  /** parseredirs after the tokens `p` of a simple command or, if not `simple`, of what follows a block. */
  lemma {:induction false} RedirsSound<W>(p: seq<Tok<W>>, base: Cmd<W>, rs: seq<Rd<W>>, ts: seq<Tok<W>>, simple: bool)
    requires IsSoFar(p, base, Wrap(base, rs), simple) && Redirs(rs, ts).Ok?
    ensures var r := Redirs(rs, ts);
            Suffix(ts, r.rest) && IsSoFar(p + Read(ts, r.rest), base, Wrap(base, r.value), simple)
    decreases |ts|
  {
    hide IsSoFar, Wrap;
    if Peek(ts, "<>") {
      var rd := Rd(ts[1].w, ts[0].c != '<');
      assert ts[..2] == [ts[0], Word(rd.file)];
      SoFarMore(p, base, rs, ts[0], rd.file, rd.out, simple);
      RedirsSound(p + ts[..2], base, rs + [rd], ts[2..], simple);
      SuffixTrans(ts, 2, Redirs(rs, ts).rest, p);
    } else {
      assert p + ts[..0] == p;
    }
  }

  lemma {:induction false} ArgsSound<W>(p: seq<Tok<W>>, args: seq<W>, rs: seq<Rd<W>>, ts: seq<Tok<W>>)
    requires IsSimple(p, Wrap(Exec(args), rs)) && Args(args, rs, ts).Ok?
    ensures var r := Args(args, rs, ts); Suffix(ts, r.rest) && IsSimple(p + Read(ts, r.rest), r.value)
    decreases |ts|
  {
    hide IsSimple, Wrap, Redirs;
    if ts == [] || Peek(ts, "|)&;") {
      assert p + ts[..0] == p;
    } else {
      var w := ts[0].w;
      SimpleArg(p, args, w, rs);
      assert ts[..1] == [Word(w)];
      var more := Redirs(rs, ts[1..]);
      RedirsSound(p + ts[..1], Exec(args + [w]), rs, ts[1..], true);
      SuffixTrans(ts, 1, more.rest, p);
      ArgsSound(p + Read(ts, more.rest), args + [w], more.value, more.rest);
      SuffixTrans(ts, |ts| - |more.rest|, Args(args, rs, ts).rest, p);
    }
  }

  lemma {:induction false} ExecSound<W>(ts: seq<Tok<W>>)
    requires ParseExec(ts).Ok?
    ensures var r := ParseExec(ts); Suffix(ts, r.rest) && IsExec(Read(ts, r.rest), r.value)
    decreases |ts|, 1
  {
    hide IsSimple, Redirs, Args, ParseBlock;
    if Peek(ts, "(") {
      BlockSound(ts);
    } else {
      SimpleSound(ts);
    }
  }

  lemma SimpleSound<W>(ts: seq<Tok<W>>)
    requires !Peek(ts, "(") && ParseExec(ts).Ok?
    ensures var r := ParseExec(ts); Suffix(ts, r.rest) && IsSimple(Read(ts, r.rest), r.value)
  {
    hide IsSimple, Redirs, Args, Wrap;
    var first := Redirs([], ts);
    NoTokens<W>();
    RedirsSound([], Exec([]), [], ts, true);
    ArgsSound([] + Read(ts, first.rest), [], first.value, first.rest);
    SuffixTrans(ts, |ts| - |first.rest|, ParseExec(ts).rest, []);
    assert [] + Read(ts, ParseExec(ts).rest) == Read(ts, ParseExec(ts).rest);
  }

  lemma NoTokens<W>()
    ensures IsSimple<W>([], Wrap(Exec([]), []))
  {
  }

  lemma {:induction false} InnerIs<W>(ts: seq<Tok<W>>, base: Cmd<W>, t: Cmd<W>)
    requires IsAfter(ts, base, t)
    ensures |ts| % 2 == 0 && Inner(t, |ts| / 2) == base
    decreases |ts|
  {
    if ts != [] {
      InnerIs(ts[..|ts| - 2], base, t.cmd);
    }
  }

  lemma {:induction false} BlockSound<W>(ts: seq<Tok<W>>)
    requires ParseBlock(ts).Ok?
    ensures var r := ParseBlock(ts); Suffix(ts, r.rest) && IsBlock(Read(ts, r.rest), r.value)
    decreases |ts|, 0
  {
    hide IsLine, IsAfter, Redirs, ParseLine, Wrap, Inner;
    var line, rest := ParseLine(ts[1..]), ParseBlock(ts).rest;
    LineSound(ts[1..]);
    SuffixTrans(ts, 1, line.rest, []);
    var after := Redirs([], line.rest[1..]);
    NothingAfter(line.value);
    RedirsSound([], line.value, [], line.rest[1..], false);
    var k := |ts| - |line.rest|;
    assert ts[k..][1..] == ts[k + 1..];
    SuffixTrans(ts, k + 1, rest, []);
    var all, tail := Read(ts, rest), Read(ts[k + 1..], rest);
    assert [] + tail == tail;
    InnerIs(tail, line.value, Wrap(line.value, after.value));
    assert all[1..k] == Read(ts[1..], line.rest) && all[k + 1..] == tail;
    assert BlockAt(all, Wrap(line.value, after.value), k);
  }

  lemma NothingAfter<W>(t: Cmd<W>)
    ensures IsSoFar([], t, Wrap(t, []), false)
  {
  }

  lemma {:induction false} PipeSound<W>(ts: seq<Tok<W>>)
    requires ParsePipe(ts).Ok?
    ensures var r := ParsePipe(ts); Suffix(ts, r.rest) && IsPipe(Read(ts, r.rest), r.value)
    decreases |ts|, 2
  {
    hide IsExec, ParseExec;
    var left := ParseExec(ts);
    ExecSound(ts);
    if Peek(left.rest, "|") {
      var k, rest := |ts| - |left.rest|, ParsePipe(ts).rest;
      assert left.rest[1..] == ts[k + 1..];
      PipeSound(ts[k + 1..]);
      SuffixTrans(ts, k + 1, rest, []);
      var all := Read(ts, rest);
      assert all[..k] == Read(ts, left.rest);
      assert PipeAt(all, ParsePipe(ts).value, k);
    }
  }

  lemma {:induction false} BacksSound<W>(p: seq<Tok<W>>, t: Cmd<W>, ts: seq<Tok<W>>)
    requires IsBack(p, t)
    ensures var r := Backs(t, ts); Suffix(ts, r.rest) && IsBack(p + Read(ts, r.rest), r.value)
    decreases |ts|
  {
    if Peek(ts, "&") {
      var p' := p + ts[..1];
      assert p'[..|p|] == p && p'[|p|] == Sym('&');
      BacksSound(p', Back(t), ts[1..]);
      SuffixTrans(ts, 1, Backs(t, ts).rest, p);
    } else {
      assert p + ts[..0] == p;
    }
  }

  lemma PipeIsBack<W>(ts: seq<Tok<W>>, t: Cmd<W>)
    requires IsPipe(ts, t)
    ensures IsBack(ts, t)
  {
    hide IsPipe;
  }

  lemma BackIsLine<W>(ts: seq<Tok<W>>, t: Cmd<W>)
    requires IsBack(ts, t)
    ensures IsLine(ts, t)
  {
    hide IsBack;
  }

  lemma LineIs<W>(ts: seq<Tok<W>>, t: Cmd<W>, k: int)
    requires t.List? && 0 <= k < |ts| && ts[k] == Sym(';') && IsBack(ts[..k], t.left) && IsLine(ts[k + 1..], t.right)
    ensures IsLine(ts, t)
  {
    hide IsBack;
    assert ListAt(ts, t, k);
  }

  lemma {:induction false} BackSound<W>(ts: seq<Tok<W>>)
    requires ParsePipe(ts).Ok?
    ensures var first := ParsePipe(ts);
            var cmd := Backs(first.value, first.rest);
            Suffix(ts, cmd.rest) && IsBack(Read(ts, cmd.rest), cmd.value)
    decreases |ts|, 3
  {
    hide IsPipe, IsBack, ParsePipe, Backs;
    var first := ParsePipe(ts);
    PipeSound(ts);
    var cmd := Backs(first.value, first.rest);
    PipeIsBack(Read(ts, first.rest), first.value);
    BacksSound(Read(ts, first.rest), first.value, first.rest);
    SuffixTrans(ts, |ts| - |first.rest|, cmd.rest, []);
    assert [] + Read(ts, first.rest) + Read(first.rest, cmd.rest) == Read(ts, cmd.rest);
  }

  /** What parseline reads is a line that can be read as what it returns. */
  lemma {:induction false} LineSound<W>(ts: seq<Tok<W>>)
    requires ParseLine(ts).Ok?
    ensures var r := ParseLine(ts); Suffix(ts, r.rest) && IsLine(Read(ts, r.rest), r.value)
    decreases |ts|, 4
  {
    hide IsBack, IsLine, ParsePipe, Backs;
    BackSound(ts);
    var cmd := Backs(ParsePipe(ts).value, ParsePipe(ts).rest);
    if Peek(cmd.rest, ";") {
      var k, rest := |ts| - |cmd.rest|, ParseLine(ts).rest;
      assert cmd.rest[1..] == ts[k + 1..];
      LineSound(ts[k + 1..]);
      SuffixTrans(ts, k + 1, rest, []);
      var all := Read(ts, rest);
      assert all[..k] == Read(ts, cmd.rest);
      LineIs(all, ParseLine(ts).value, k);
    } else {
      BackIsLine(Read(ts, cmd.rest), cmd.value);
    }
  }

  // ---- what follows the rules is read -----------------------------------------------------------------------

  /** Words and redirections, with `n` arguments among them. */
  ghost predicate Tidy<W>(ts: seq<Tok<W>>, n: nat) {
    if ts == [] then n == 0
    else if ts[0].Word? then n > 0 && Tidy(ts[1..], n - 1)
    else |ts| >= 2 && (RedirTok(ts[0], true) || RedirTok(ts[0], false)) && ts[1].Word? && Tidy(ts[2..], n)
  }

  lemma {:induction false} TidyAppend<W>(a: seq<Tok<W>>, n: nat, b: seq<Tok<W>>, m: nat)
    requires Tidy(a, n) && Tidy(b, m)
    ensures Tidy(a + b, n + m)
    decreases |a|
  {
    hide Tidy, RedirTok;
    TidyFirst(a, n);
    if a == [] {
      assert a + b == b;
    } else if a[0].Word? {
      TidyAppend(a[1..], n - 1, b, m);
      TidyWord(a[0], a[1..] + b, n - 1 + m);
      assert [a[0]] + (a[1..] + b) == a + b;
    } else {
      TidyAppend(a[2..], n, b, m);
      TidyRedir(a[0], a[1], a[2..] + b, n + m);
      assert [a[0], a[1]] + (a[2..] + b) == a + b;
    }
  }

  lemma TidyFirst<W>(ts: seq<Tok<W>>, n: nat)
    requires Tidy(ts, n)
    ensures ts == [] ==> n == 0
    ensures ts != [] && ts[0].Word? ==> n > 0 && Tidy(ts[1..], n - 1)
    ensures ts != [] && !ts[0].Word? ==>
              |ts| >= 2 && (RedirTok(ts[0], true) || RedirTok(ts[0], false)) && ts[1].Word? && Tidy(ts[2..], n)
  {
  }

  lemma TidyWord<W>(w: Tok<W>, ts: seq<Tok<W>>, n: nat)
    requires w.Word? && Tidy(ts, n)
    ensures Tidy([w] + ts, n + 1)
  {
    assert ([w] + ts)[1..] == ts;
  }

  lemma TidyRedir<W>(s: Tok<W>, w: Tok<W>, ts: seq<Tok<W>>, n: nat)
    requires (RedirTok(s, true) || RedirTok(s, false)) && w.Word? && Tidy(ts, n)
    ensures Tidy([s, w] + ts, n)
  {
    assert ([s, w] + ts)[2..] == ts;
  }

  lemma {:induction false} DropArgLess<W>(t: Cmd<W>)
    requires ArgsOf(t) != []
    ensures ArgsOf(DropArg(t)) == ArgsOf(t)[..|ArgsOf(t)| - 1]
  {
    if t.Redir? {
      DropArgLess(t.cmd);
    }
  }

  lemma {:induction false} SimpleTidy<W>(ts: seq<Tok<W>>, t: Cmd<W>)
    requires IsSimple(ts, t)
    ensures |ArgsOf(t)| < 10 && Tidy(ts, |ArgsOf(t)|)
    decreases |ts|
  {
    if ts != [] {
      var n := |ts| - 1;
      hide Tidy;
      if n > 0 && ts[n - 1].Sym? {
        SimpleTidy(ts[..n - 1], t.cmd);
        LastTwo(ts[n - 1], ts[n]);
        TidyAppend(ts[..n - 1], |ArgsOf(t)|, [ts[n - 1], ts[n]], 0);
        assert ts[..n - 1] + [ts[n - 1], ts[n]] == ts;
      } else {
        DropArgLess(t);
        SimpleTidy(ts[..n], DropArg(t));
        TidyNone<W>();
        TidyWord(ts[n], [], 0);
        assert [ts[n]] + [] == [ts[n]];
        TidyAppend(ts[..n], |ArgsOf(t)| - 1, [ts[n]], 1);
        assert ts[..n] + [ts[n]] == ts;
      }
    }
  }

  lemma TidyNone<W>()
    ensures Tidy<W>([], 0)
  {
  }

  lemma LastTwo<W>(s: Tok<W>, w: Tok<W>)
    requires (RedirTok(s, true) || RedirTok(s, false)) && w.Word?
    ensures Tidy([s, w], 0)
  {
    assert [s, w][2..] == [];
  }

  lemma {:induction false} AfterTidy<W>(ts: seq<Tok<W>>, base: Cmd<W>, t: Cmd<W>)
    requires IsAfter(ts, base, t)
    ensures Tidy(ts, 0)
    decreases |ts|
  {
    if ts != [] {
      var n := |ts| - 2;
      AfterTidy(ts[..n], base, t.cmd);
      LastTwo(ts[n], ts[n + 1]);
      TidyAppend(ts[..n], 0, [ts[n], ts[n + 1]], 0);
      assert ts[..n] + [ts[n], ts[n + 1]] == ts;
    }
  }

  // Tokens can be read in one way.

  lemma {:induction false} DropArgSame<W>(t: Cmd<W>, u: Cmd<W>)
    requires DropArg(t) == DropArg(u) && ArgsOf(t) != [] && ArgsOf(u) != []
    requires ArgsOf(t)[|ArgsOf(t)| - 1] == ArgsOf(u)[|ArgsOf(u)| - 1]
    ensures t == u
  {
    if t.Redir? {
      DropArgSame(t.cmd, u.cmd);
    } else {
      assert t.args[..|t.args| - 1] + [t.args[|t.args| - 1]] == t.args;
      assert u.args[..|u.args| - 1] + [u.args[|u.args| - 1]] == u.args;
    }
  }

  lemma {:induction false} SimpleUnique<W>(ts: seq<Tok<W>>, t: Cmd<W>, u: Cmd<W>)
    requires IsSimple(ts, t) && IsSimple(ts, u)
    ensures t == u
    decreases |ts|
  {
    if ts != [] {
      var n := |ts| - 1;
      if n > 0 && ts[n - 1].Sym? {
        SimpleUnique(ts[..n - 1], t.cmd, u.cmd);
      } else {
        SimpleUnique(ts[..n], DropArg(t), DropArg(u));
        DropArgSame(t, u);
      }
    }
  }

  lemma {:induction false} AfterUnique<W>(ts: seq<Tok<W>>, base: Cmd<W>, t: Cmd<W>, u: Cmd<W>)
    requires IsAfter(ts, base, t) && IsAfter(ts, base, u)
    ensures t == u
    decreases |ts|
  {
    if ts != [] {
      AfterUnique(ts[..|ts| - 2], base, t.cmd, u.cmd);
    }
  }

  /** Nothing is left, or one of the symbols in `cs` comes next. */
  predicate Ends<W>(rest: seq<Tok<W>>, cs: string) {
    |rest| == 0 || (rest[0].Sym? && rest[0].c in cs)
  }

  /** parseredirs stops at an argument or at the end. */
  lemma {:induction false} RedirsTidy<W>(rs: seq<Rd<W>>, ts: seq<Tok<W>>, n: nat, rest: seq<Tok<W>>)
    returns (q: seq<Tok<W>>)
    requires Tidy(ts, n) && Ends(rest, "|)&;")
    ensures Redirs(rs, ts + rest).Ok? && Redirs(rs, ts + rest).rest == q + rest
    ensures Tidy(q, n) && (q == [] || q[0].Word?) && |q| <= |ts|
    decreases |ts|
  {
    var all := ts + rest;
    if ts == [] || ts[0].Word? {
      q := ts;
    } else {
      assert all[2..] == ts[2..] + rest;
      q := RedirsTidy(rs + [Rd(ts[1].w, ts[0].c != '<')], ts[2..], n, rest);
    }
  }

  lemma {:induction false} ArgsTidy<W>(args: seq<W>, rs: seq<Rd<W>>, ts: seq<Tok<W>>, n: nat, rest: seq<Tok<W>>)
    requires Tidy(ts, n) && (ts == [] || ts[0].Word?) && |args| + n < 10 && Ends(rest, "|)&;")
    ensures Args(args, rs, ts + rest).Ok? && Args(args, rs, ts + rest).rest == rest
    decreases |ts|
  {
    hide Redirs, Wrap;
    if ts == [] {
      assert ts + rest == rest;
    } else {
      var all := ts + rest;
      assert all[1..] == ts[1..] + rest;
      var q := RedirsTidy(rs, ts[1..], n - 1, rest);
      ArgsTidy(args + [ts[0].w], Redirs(rs, all[1..]).value, q, n - 1, rest);
    }
  }

  lemma SimpleComplete<W>(ts: seq<Tok<W>>, t: Cmd<W>, rest: seq<Tok<W>>)
    requires IsSimple(ts, t) && Ends(rest, "|)&;")
    ensures ParseExec(ts + rest) == Ok(t, rest)
  {
    hide IsSimple, Redirs, Args;
    SimpleTidy(ts, t);
    var q := RedirsTidy([], ts, |ArgsOf(t)|, rest);
    var all := ts + rest;
    assert !Peek(all, "(") by {
      assert ts != [] ==> all[0] == ts[0];
    }
    ArgsTidy([], Redirs([], all).value, q, |ArgsOf(t)|, rest);
    SimpleSound(all);
    assert Read(all, rest) == ts;
    SimpleUnique(ts, t, ParseExec(all).value);
  }

  lemma AfterComplete<W>(ts: seq<Tok<W>>, base: Cmd<W>, t: Cmd<W>, rest: seq<Tok<W>>)
    requires IsAfter(ts, base, t) && Ends(rest, "|)&;")
    ensures var r := Redirs([], ts + rest); r.Ok? && r.rest == rest && Wrap(base, r.value) == t
  {
    hide IsAfter, Redirs, Wrap, IsSimple;
    AfterTidy(ts, base, t);
    var q := RedirsTidy([], ts, 0, rest);
    assert q + rest == rest;
    var r := Redirs([], ts + rest);
    NothingAfter(base);
    RedirsSound([], base, [], ts + rest, false);
    assert [] + Read(ts + rest, rest) == ts;
    AfterUnique(ts, base, t, Wrap(base, r.value));
  }

  /** parseblock, from what its two calls return. */
  lemma BlockParses<W>(all: seq<Tok<W>>, u: Cmd<W>, more: seq<Tok<W>>, t: Cmd<W>, rest: seq<Tok<W>>)
    requires all != [] && all[0] == Sym('(') && more != [] && more[0] == Sym(')') && ParseLine(all[1..]) == Ok(u, more)
    requires var r := Redirs([], more[1..]); r.Ok? && r.rest == rest && Wrap(u, r.value) == t
    ensures ParseExec(all) == Ok(t, rest)
  {
    hide Redirs, ParseLine, Wrap, Args;
  }

  lemma {:induction false} BlockComplete<W>(ts: seq<Tok<W>>, t: Cmd<W>, k: int, rest: seq<Tok<W>>)
    requires BlockAt(ts, t, k) && Ends(rest, "|)&;")
    ensures ParseExec(ts + rest) == Ok(t, rest)
    decreases |ts|, 0
  {
    hide IsLine, IsAfter, Redirs, ParseLine, Wrap, Inner, ParseExec;
    var all, u := ts + rest, Inner(t, (|ts| - k - 1) / 2);
    var more := ts[k..] + rest;
    assert all[1..] == ts[1..k] + more;
    LineComplete(ts[1..k], u, more);
    assert more[1..] == ts[k + 1..] + rest;
    AfterComplete(ts[k + 1..], u, t, rest);
    BlockParses(all, u, more, t, rest);
  }

  lemma {:induction false} ExecComplete<W>(ts: seq<Tok<W>>, t: Cmd<W>, rest: seq<Tok<W>>)
    requires IsExec(ts, t) && Ends(rest, "|)&;")
    ensures ParseExec(ts + rest) == Ok(t, rest)
    decreases |ts|, 1
  {
    hide IsSimple, ParseExec;
    if IsSimple(ts, t) {
      SimpleComplete(ts, t, rest);
    } else {
      assert IsBlock(ts, t);
      var k :| BlockAt(ts, t, k);
      BlockComplete(ts, t, k, rest);
    }
  }

  lemma {:induction false} PipeComplete<W>(ts: seq<Tok<W>>, t: Cmd<W>, rest: seq<Tok<W>>)
    requires IsPipe(ts, t) && Ends(rest, ")&;")
    ensures ParsePipe(ts + rest) == Ok(t, rest)
    decreases |ts|, 2
  {
    hide IsExec, ParseExec;
    if IsExec(ts, t) {
      ExecComplete(ts, t, rest);
    } else {
      var k :| PipeAt(ts, t, k);
      assert ts + rest == ts[..k] + (ts[k..] + rest);
      ExecComplete(ts[..k], t.left, ts[k..] + rest);
      assert (ts[k..] + rest)[1..] == ts[k + 1..] + rest;
      PipeComplete(ts[k + 1..], t.right, rest);
    }
  }

  lemma {:induction false} BackComplete<W>(ts: seq<Tok<W>>, t: Cmd<W>, rest: seq<Tok<W>>)
    requires IsBack(ts, t) && Ends(rest, ")&;")
    ensures var first := ParsePipe(ts + rest); first.Ok? && Backs(first.value, first.rest) == Backs(t, rest)
    decreases |ts|, 3
  {
    hide IsPipe, ParsePipe;
    if IsPipe(ts, t) {
      PipeComplete(ts, t, rest);
    } else {
      var n := |ts| - 1;
      BackComplete(ts[..n], t.cmd, [Sym('&')] + rest);
      assert ts[..n] + ([Sym('&')] + rest) == ts + rest;
      assert ([Sym('&')] + rest)[1..] == rest;
    }
  }

  lemma {:induction false} LineComplete<W>(ts: seq<Tok<W>>, t: Cmd<W>, rest: seq<Tok<W>>)
    requires IsLine(ts, t) && Ends(rest, ")")
    ensures ParseLine(ts + rest) == Ok(t, rest)
    decreases |ts|, 4
  {
    hide IsBack, ParsePipe;
    if IsBack(ts, t) {
      BackComplete(ts, t, rest);
    } else {
      var k :| ListAt(ts, t, k);
      assert ts + rest == ts[..k] + (ts[k..] + rest);
      BackComplete(ts[..k], t.left, ts[k..] + rest);
      assert (ts[k..] + rest)[1..] == ts[k + 1..] + rest;
      LineComplete(ts[k + 1..], t.right, rest);
    }
  }

  /** parsecmd accepts exactly the lines of the grammar, each with the one command it can be read as, and panics on
      everything else. */
  lemma ParsesExactly<W>(ts: seq<Tok<W>>, t: Cmd<W>)
    ensures Parse(ts) == Ok(t, []) <==> IsLine(ts, t)
    ensures Parse(ts).Ok? ==> Parse(ts).rest == [] && IsLine(ts, Parse(ts).value)
  {
    hide IsLine, ParseLine;
    if IsLine(ts, t) {
      LineComplete(ts, t, []);
      assert ts + [] == ts;
    }
    if ParseLine(ts).Ok? {
      LineSound(ts);
      assert ParseLine(ts).rest == [] ==> Read(ts, []) == ts;
    }
  }
}
