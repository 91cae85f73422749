/** sh.c's recursive descent over the characters of a line, with its cursor, and nulterminate's writes into the line. */
module ShellParser {
  import opened ShellGrammar
  import W = ShellWords
  import opened Shell

  /** A parsing function returns a value or panics. */
  datatype Maybe<T> = Got(value: T) | Panicked

  /** The method did what the grammar says, and the cursor stands before the tokens it leaves. */
  ghost predicate Agrees<T>(m: Maybe<T>, r: Result<T, Span>, rest: seq<Tok<Span>>) {
    if m.Got? then r == Ok(m.value, rest) else r.Panic?
  }

  class Parser {
    const s: string
    var pos: nat

    constructor (s: string)
      ensures this.s == s && pos == 0
    {
      this.s := s;
      pos := 0;
    }

    /** The tokens not yet read. */
    ghost function Left(): (ts: seq<Tok<Span>>)
      reads this
      requires pos <= |s|
    {
      Lex(s, pos)
    }

    method SkipWhite()
      requires pos <= |s|
      modifies this`pos
      ensures pos <= |s| && pos == Skip(s, old(pos)) && Left() == old(Left()) && Skip(s, pos) == pos
    {
      SkipTwice(s, pos);
      hide Lex;
      while pos < |s| && White(s[pos])
        invariant pos <= |s| && Skip(s, pos) == Skip(s, old(pos))
      {
        pos := pos + 1;
      }
    }

    /** peek */
    method Next(toks: string) returns (b: bool)
      requires pos <= |s| && forall c :: c in toks ==> Symbol(c) && c != '+'
      modifies this`pos
      ensures pos <= |s| && Left() == old(Left()) && b == Peek(Left(), toks) && Skip(s, pos) == pos
    {
      SkipWhite();
      b := pos < |s| && s[pos] in toks;
      PeekAt(s, pos, toks);
    }

    /** gettoken: the next token, past which the cursor moves; NUL at the end of the line. */
    method GetToken() returns (tok: char, q: nat, eq: nat)
      requires pos <= |s|
      modifies this`pos
      ensures pos <= |s| && (pos < |s| ==> !White(s[pos]))
      ensures old(Left()) == [] ==> tok == NUL && Left() == []
      ensures old(Left()) != [] ==>
                && Left() == old(Left())[1..]
                && match old(Left())[0] { case Sym(c) => tok == c && tok != NUL && tok != 'a'
                                          case Word(sp) => tok == 'a' && sp == Span(q, eq) }
    {
      SkipWhite();
      q := pos;
      LexAt(s, pos);
      if pos == |s| {
        tok := NUL;
      } else if s[pos] in "|();&<" {
        tok := s[pos];
        pos := pos + 1;
      } else if s[pos] == '>' {
        tok := '>';
        pos := pos + 1;
        if pos < |s| && s[pos] == '>' {
          tok := '+';
          pos := pos + 1;
        }
      } else {
        tok := 'a';
        while pos < |s| && !White(s[pos]) && !Symbol(s[pos])
          invariant q <= pos <= |s| && WordEnd(s, pos) == WordEnd(s, q)
        {
          pos := pos + 1;
        }
      }
      eq := pos;
      SkipWhite();
    }

    /** parseredirs: the redirections collected so far, and those that follow. */
    method ParseRedirs(rs0: seq<Rd<Span>>) returns (m: Maybe<seq<Rd<Span>>>)
      requires pos <= |s|
      modifies this`pos
      ensures pos <= |s| && Agrees(m, Redirs(rs0, old(Left())), Left())
      ensures |Left()| <= |old(Left())|
    {
      hide Lex, Symbol;
      Symbols();
      var rs := rs0;
      while true
        invariant pos <= |s| && Redirs(rs0, old(Left())) == Redirs(rs, Left()) && |Left()| <= |old(Left())|
        decreases |Left()|
      {
        var more := Next("<>");
        if !more {
          return Got(rs);
        }
        ghost var ts := Left();
        var tok, _, _ := GetToken();
        var word, q, eq := GetToken();
        if word != 'a' {
          return Panicked;
        }
        rs := rs + [Rd(Span(q, eq), tok != '<')];
      }
    }

    /** parseexec */
    method ParseExec() returns (m: Maybe<Cmd<Span>>)
      requires pos <= |s|
      modifies this`pos
      ensures pos <= |s| && Agrees(m, ShellGrammar.ParseExec(old(Left())), Left()) && |Left()| <= |old(Left())|
      decreases |Left()|, 1
    {
      hide Lex, Symbol, Redirs, ShellGrammar.ParseBlock;
      Symbols();
      var block := Next("(");
      if block {
        m := ParseBlock();
        return;
      }
      var first := ParseRedirs([]);
      if first.Panicked? {
        return Panicked;
      }
      var args, rs := [], first.value;
      while true
        invariant pos <= |s| && |Left()| <= |old(Left())|
        invariant ShellGrammar.ParseExec(old(Left())) == Args(args, rs, Left())
        decreases |Left()|
      {
        var stop := Next("|)&;");
        if stop {
          return Got(Wrap(Exec(args), rs));
        }
        ghost var ts := Left();
        var tok, q, eq := GetToken();
        if tok == NUL {
          return Got(Wrap(Exec(args), rs));
        }
        if tok != 'a' {
          return Panicked;
        }
        args := args + [Span(q, eq)];
        if |args| >= MAXARGS {
          return Panicked;
        }
        var more := ParseRedirs(rs);
        if more.Panicked? {
          return Panicked;
        }
        rs := more.value;
      }
    }

    /** parseblock */
    method ParseBlock() returns (m: Maybe<Cmd<Span>>)
      requires pos <= |s|
      modifies this`pos
      ensures pos <= |s| && Agrees(m, ShellGrammar.ParseBlock(old(Left())), Left()) && |Left()| <= |old(Left())|
      decreases |Left()|, 0
    {
      hide Lex, Symbol, Redirs, ShellGrammar.ParseLine;
      Symbols();
      var open := Next("(");
      if !open {
        return Panicked;
      }
      var _, _, _ := GetToken();
      var line := ParseLine();
      if line.Panicked? {
        return Panicked;
      }
      var close := Next(")");
      if !close {
        return Panicked;
      }
      var _, _, _ := GetToken();
      var after := ParseRedirs([]);
      if after.Panicked? {
        return Panicked;
      }
      return Got(Wrap(line.value, after.value));
    }

    /** parsepipe */
    method ParsePipe() returns (m: Maybe<Cmd<Span>>)
      requires pos <= |s|
      modifies this`pos
      ensures pos <= |s| && Agrees(m, ShellGrammar.ParsePipe(old(Left())), Left()) && |Left()| <= |old(Left())|
      decreases |Left()|, 2
    {
      hide Lex, Symbol, ShellGrammar.ParseExec;
      Symbols();
      m := ParseExec();
      if m.Panicked? {
        return;
      }
      var piped := Next("|");
      if piped {
        var _, _, _ := GetToken();
        var right := ParsePipe();
        m := if right.Panicked? then Panicked else Got(Pipe(m.value, right.value));
      }
    }

    /** parseline */
    method ParseLine() returns (m: Maybe<Cmd<Span>>)
      requires pos <= |s|
      modifies this`pos
      ensures pos <= |s| && Agrees(m, ShellGrammar.ParseLine(old(Left())), Left()) && |Left()| <= |old(Left())|
      decreases |Left()|, 3
    {
      hide Lex, Symbol, ShellGrammar.ParsePipe;
      Symbols();
      m := ParsePipe();
      if m.Panicked? {
        return;
      }
      var cmd := m.value;
      ghost var r := Backs(cmd, Left());
      var back := Next("&");
      while back
        invariant pos <= |s| && |Left()| <= |old(Left())| && back == Peek(Left(), "&") && Backs(cmd, Left()) == r
        decreases |Left()|
      {
        var _, _, _ := GetToken();
        cmd := Back(cmd);
        back := Next("&");
      }
      var list := Next(";");
      if !list {
        return Got(cmd);
      }
      var _, _, _ := GetToken();
      var rest := ParseLine();
      m := if rest.Panicked? then Panicked else Got(List(cmd, rest.value));
    }
  }

  lemma Symbols()
    ensures forall c :: c in "<>" || c in "|)&;" || c in "(" || c in ")" || c in "|" || c in "&" || c in ";" ==>
            Symbol(c) && c != '+'
  {
  }

  // ---- nulterminate -----------------------------------------------------------------------------------------

  /** The C string that starts at `q`. */
  function CString(b: seq<char>, q: nat): (r: string)
    decreases |b| - q
  {
    if q < |b| && b[q] != NUL then [b[q]] + CString(b, q + 1) else []
  }

  lemma {:induction false} CStringEnds(b: seq<char>, q: nat, eq: nat)
    requires q <= eq < |b| && b[eq] == NUL && forall k :: q <= k < eq ==> b[k] != NUL
    ensures CString(b, q) == b[q..eq]
    decreases eq - q
  {
    if q < eq {
      CStringEnds(b, q + 1, eq);
    }
  }

  /** Where the words of a command end. */
  ghost function EndsOf(t: Cmd<Span>): (e: set<int>) {
    match t
    case Exec(args) => set i | 0 <= i < |args| :: args[i].eq
    case Redir(cmd, file, _) => EndsOf(cmd) + {file.eq}
    case Pipe(left, right) => EndsOf(left) + EndsOf(right)
    case List(left, right) => EndsOf(left) + EndsOf(right)
    case Back(cmd) => EndsOf(cmd)
  }

  /** nulterminate: a NUL at the end of every word, and no other change. */
  method NulTerminate(buf: array<char>, t: Cmd<Span>)
    requires forall e :: e in EndsOf(t) ==> 0 <= e < buf.Length
    modifies buf
    ensures forall k :: 0 <= k < buf.Length ==> buf[k] == if k in EndsOf(t) then NUL else old(buf[k])
    decreases t
  {
    match t
    case Exec(args) =>
      var i := 0;
      while i < |args|
        invariant 0 <= i <= |args|
        invariant forall k :: 0 <= k < buf.Length ==>
                                buf[k] == if exists j :: 0 <= j < i && args[j].eq == k then NUL else old(buf[k])
      {
        assert args[i].eq in EndsOf(t);
        buf[args[i].eq] := NUL;
        i := i + 1;
      }
    case Redir(cmd, file, _) =>
      assert EndsOf(t) == EndsOf(cmd) + {file.eq};
      NulTerminate(buf, cmd);
      buf[file.eq] := NUL;
    case Pipe(left, right) =>
      assert EndsOf(t) == EndsOf(left) + EndsOf(right);
      NulTerminate(buf, left);
      NulTerminate(buf, right);
    case List(left, right) =>
      assert EndsOf(t) == EndsOf(left) + EndsOf(right);
      NulTerminate(buf, left);
      NulTerminate(buf, right);
    case Back(cmd) =>
      assert EndsOf(t) == EndsOf(cmd);
      NulTerminate(buf, cmd);
  }

  lemma {:induction false} EndsAreWords(t: Cmd<Span>, e: int)
    requires e in EndsOf(t)
    ensures exists sp :: sp in W.CmdBag(t) && sp.eq == e
    decreases t, 1
  {
    match t
    case Exec(args) =>
      var i :| 0 <= i < |args| && args[i].eq == e;
      assert args[i] in multiset(args);
    case Redir(cmd, file, _) =>
      if e == file.eq {
        assert file in W.CmdBag(t);
      } else {
        EndsAreWords(cmd, e);
        var sp :| sp in W.CmdBag(cmd) && sp.eq == e;
        assert sp in W.CmdBag(t);
      }
    case Pipe(left, right) => EndsInTwo(t, left, right, e);
    case List(left, right) => EndsInTwo(t, left, right, e);
    case Back(cmd) => EndsAreWords(cmd, e);
  }

  lemma {:induction false} EndsInTwo(t: Cmd<Span>, left: Cmd<Span>, right: Cmd<Span>, e: int)
    requires left < t && right < t && e in EndsOf(left) + EndsOf(right)
             && W.CmdBag(t) == W.CmdBag(left) + W.CmdBag(right)
    ensures exists sp :: sp in W.CmdBag(t) && sp.eq == e
    decreases t, 0
  {
    if e in EndsOf(left) {
      EndsAreWords(left, e);
      var sp :| sp in W.CmdBag(left) && sp.eq == e;
      assert sp in W.CmdBag(t);
    } else {
      EndsAreWords(right, e);
      var sp :| sp in W.CmdBag(right) && sp.eq == e;
      assert sp in W.CmdBag(t);
    }
  }

  /** parsecmd: parse the line, insist that nothing is left over, and terminate the words in place. Every word of the
      command is then a C string that reads as it did in the line. */
  method ParseCmd(buf: array<char>) returns (m: Maybe<Cmd<Span>>)
    requires buf.Length > 0 && buf[buf.Length - 1] == NUL
    requires forall k :: 0 <= k < buf.Length - 1 ==> buf[k] != NUL
    modifies buf
    ensures var r := Parse(Lex(old(buf[..buf.Length - 1]), 0));
            if m.Got? then r == Ok(m.value, []) else r.Panic? && buf[..] == old(buf[..])
    ensures m.Got? ==> forall sp :: sp in W.CmdBag(m.value) ==>
              sp.q < sp.eq < buf.Length && CString(buf[..], sp.q) == old(buf[sp.q..sp.eq])
  {
    hide Lex, ShellGrammar.ParseLine, Maximal, CString, EndsOf, W.CmdBag, Plain;
    var s := buf[..buf.Length - 1];
    var p := new Parser(s);
    m := p.ParseLine();
    if m.Panicked? {
      return;
    }
    var _ := p.Next("");
    if p.pos != |s| {
      EndIsNothing(s, p.pos);
      return Panicked;
    }
    EndIsNothing(s, p.pos);
    WordsAreMaximal(s, m.value);
    NulTerminate(buf, m.value);
    forall sp | sp in W.CmdBag(m.value) ensures sp.q < sp.eq < buf.Length && CString(buf[..], sp.q) == s[sp.q..sp.eq] {
      WordTerminated(s, buf[..], m.value, sp);
    }
  }

  lemma EndIsNothing(s: string, i: nat)
    requires i <= |s| && Skip(s, i) == i
    ensures Lex(s, i) == [] <==> i == |s|
  {
  }

  /** The words of a parsed command are words of the line, and so are the places that nulterminate writes to. */
  lemma WordsAreMaximal(s: string, t: Cmd<Span>)
    requires ShellGrammar.ParseLine(Lex(s, 0)).Ok? && ShellGrammar.ParseLine(Lex(s, 0)).value == t
    ensures forall sp :: sp in W.CmdBag(t) ==> Maximal(s, sp)
    ensures forall e :: e in EndsOf(t) ==> 0 <= e <= |s| && (e < |s| ==> !Plain(s[e]))
  {
    hide Lex, ShellGrammar.ParseLine;
    W.LineBag(Lex(s, 0));
    forall sp | sp in W.CmdBag(t) ensures Maximal(s, sp) {
      LexMaximal(s, 0, sp);
    }
    forall e | e in EndsOf(t) ensures 0 <= e <= |s| && (e < |s| ==> !Plain(s[e])) {
      EndsAreWords(t, e);
    }
  }

  lemma WordTerminated(s: string, b: seq<char>, t: Cmd<Span>, sp: Span)
    requires |b| == |s| + 1 && sp in W.CmdBag(t) && Maximal(s, sp) && forall k :: 0 <= k < |s| ==> s[k] != NUL
    requires forall e :: e in EndsOf(t) ==> 0 <= e && (e < |s| ==> !Plain(s[e]))
    requires forall k :: 0 <= k < |b| ==> b[k] == if k in EndsOf(t) || k == |s| then NUL else s[k]
    ensures sp.q < sp.eq < |b| && CString(b, sp.q) == s[sp.q..sp.eq]
  {
    WordsAreEnds(t, sp);
    forall k | sp.q <= k < sp.eq ensures k !in EndsOf(t) && b[k] == s[k] {
    }
    CStringEnds(b, sp.q, sp.eq);
    assert b[sp.q..sp.eq] == s[sp.q..sp.eq];
  }

  lemma {:induction false} WordsAreEnds(t: Cmd<Span>, sp: Span)
    requires sp in W.CmdBag(t)
    ensures sp.eq in EndsOf(t)
  {
    match t
    case Exec(args) =>
      assert sp in args;
    case Redir(cmd, file, _) =>
      if sp != file {
        assert sp in W.CmdBag(cmd);
        WordsAreEnds(cmd, sp);
      }
    case Pipe(left, right) =>
      if sp in W.CmdBag(left) { WordsAreEnds(left, sp); } else { WordsAreEnds(right, sp); }
    case List(left, right) =>
      if sp in W.CmdBag(left) { WordsAreEnds(left, sp); } else { WordsAreEnds(right, sp); }
    case Back(cmd) => WordsAreEnds(cmd, sp);
  }

  lemma PeekAt(s: string, i: nat, toks: string)
    requires i <= |s| && Skip(s, i) == i && forall c :: c in toks ==> Symbol(c) && c != '+'
    ensures Peek(Lex(s, i), toks) <==> i < |s| && s[i] in toks
    ensures Lex(s, i) == [] ==> i == |s|
  {
  }

  /** The token at the cursor. */
  lemma LexAt(s: string, i: nat)
    requires i <= |s| && Skip(s, i) == i
    ensures i == |s| ==> Lex(s, i) == []
    ensures i < |s| && s[i] in "|();&<" ==> Lex(s, i) == [Sym(s[i])] + Lex(s, i + 1)
    ensures i < |s| && s[i] == '>' ==>
              Lex(s, i) == if i + 1 < |s|
                  && s[i + 1] == '>' then [Sym('+')] + Lex(s, i + 2) else [Sym('>')] + Lex(s, i + 1)
    ensures i < |s| && s[i] !in "|();&<" && s[i] != '>' ==>
              Plain(s[i]) && Lex(s, i) == [Word(Span(i, WordEnd(s, i)))] + Lex(s, WordEnd(s, i))
  {
  }
}
