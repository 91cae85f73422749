/** The scanner and parser of sh.c, on characters. */
module Shell {
  import G = ShellGrammar
  import opened ShellWords

  const NUL: char := '\0'

  predicate White(c: char) {
    c in " \t\r\n\U{0b}"
  }

  predicate Symbol(c: char) {
    c in "<|>&;()"
  }

  predicate Plain(c: char) {
    !White(c) && !Symbol(c)
  }

  /** Where a word starts and ends: the pointers q and eq. */
  datatype Span = Span(q: nat, eq: nat)

  // ---- the tokens of a line ---------------------------------------------------------------------------------

  function Skip(s: string, i: nat): (j: nat)
    requires i <= |s|
    ensures i <= j <= |s| && (j < |s| ==> !White(s[j]))
    decreases |s| - i
  {
    if i < |s| && White(s[i]) then Skip(s, i + 1) else i
  }

  function WordEnd(s: string, i: nat): (j: nat)
    requires i <= |s|
    ensures i <= j <= |s| && (j < |s| ==> !Plain(s[j]))
    ensures forall k :: i <= k < j ==> Plain(s[k])
    decreases |s| - i
  {
    if i < |s| && Plain(s[i]) then WordEnd(s, i + 1) else i
  }

  function Lex(s: string, i: nat): (ts: seq<G.Tok<Span>>)
    requires i <= |s|
    decreases |s| - i
  {
    var j := Skip(s, i);
    if j == |s| then []
    else if s[j] == '>' && j + 1 < |s| && s[j + 1] == '>' then [G.Sym('+')] + Lex(s, j + 2)
    else if Symbol(s[j]) then [G.Sym(s[j])] + Lex(s, j + 1)
    else [G.Word(Span(j, WordEnd(s, j)))] + Lex(s, WordEnd(s, j))
  }

  lemma {:induction false} SkipTwice(s: string, i: nat)
    requires i <= |s|
    ensures Skip(s, Skip(s, i)) == Skip(s, i) && Lex(s, Skip(s, i)) == Lex(s, i)
    decreases |s| - i
  {
    hide White, Symbol, Plain, WordEnd;
    if i < |s| && White(s[i]) {
      SkipTwice(s, i + 1);
    }
  }

  /** A word of the line: as long as it can be. */
  ghost predicate Maximal(s: string, sp: Span) {
    && sp.q < sp.eq <= |s|
    && (forall k :: sp.q <= k < sp.eq ==> Plain(s[k]))
    && (sp.eq < |s| ==> !Plain(s[sp.eq]))
  }

  lemma WordMaximal(s: string, j: nat)
    requires j < |s| && Plain(s[j])
    ensures Maximal(s, Span(j, WordEnd(s, j)))
  {
    hide White, Symbol;
  }

  lemma BagNone(sp: Span)
    ensures sp !in Bag<Span>([])
  {
  }

  /** The first token from `i` on, and where the next one is looked for. */
  lemma LexCases(s: string, i: nat)
    requires i <= |s|
    ensures var j := Skip(s, i);
            Lex(s, i) ==
              if j == |s| then []
              else if s[j] == '>' && j + 1 < |s| && s[j + 1] == '>' then [G.Sym('+')] + Lex(s, j + 2)
              else if Symbol(s[j]) then [G.Sym(s[j])] + Lex(s, j + 1)
              else [G.Word(Span(j, WordEnd(s, j)))] + Lex(s, WordEnd(s, j))
  {
  }

  lemma BagHead(t: G.Tok<Span>, ts: seq<G.Tok<Span>>, sp: Span)
    ensures sp in Bag([t] + ts) <==> t == G.Word(sp) || sp in Bag(ts)
  {
    assert ([t] + ts)[1..] == ts;
  }

  lemma {:induction false} LexMaximal(s: string, i: nat, sp: Span)
    requires i <= |s| && sp in Bag(Lex(s, i))
    ensures Maximal(s, sp)
    decreases |s| - i
  {
    hide White, Symbol, WordEnd, Maximal, Lex, Bag;
    var j := Skip(s, i);
    LexCases(s, i);
    BagNone(sp);
    if s[j] == '>' && j + 1 < |s| && s[j + 1] == '>' {
      BagHead(G.Sym('+'), Lex(s, j + 2), sp);
      LexMaximal(s, j + 2, sp);
    } else if Symbol(s[j]) {
      BagHead(G.Sym(s[j]), Lex(s, j + 1), sp);
      LexMaximal(s, j + 1, sp);
    } else {
      var e := WordEnd(s, j);
      BagHead(G.Word(Span(j, e)), Lex(s, e), sp);
      WordMaximal(s, j);
      if sp != Span(j, e) {
        assert e > j;
        LexMaximal(s, e, sp);
      }
    }
  }

  // ---- the scanner's rules ----------------------------------------------------------------------------------

  /** Only blanks from `a` up to `b`. */
  ghost predicate Blanks(s: string, a: nat, b: nat) {
    a <= b <= |s| && forall k :: a <= k < b ==> s[k] in " \t\r\n\U{0b}"
  }

  ghost predicate WordChar(c: char) {
    c !in " \t\r\n\U{0b}" && c !in "<|>&;()"
  }

  /** The characters from `q` up to `e` are the token `t`: a word as long as it can be, two `>` in a row, or one
      symbol. */
  ghost predicate TokenAt(s: string, q: nat, e: nat, t: G.Tok<Span>) {
    && q < e <= |s|
    && match t
       case Word(sp) =>
         sp == Span(q, e) && (forall k :: q <= k < e ==> WordChar(s[k])) && (e < |s| ==> !WordChar(s[e]))
       case Sym(c) =>
         if c == '+' then e == q + 2 && s[q] == '>' && s[q + 1] == '>'
         else e == q + 1 && s[q] == c && c in "<|>&;()" && (c == '>' && e < |s| ==> s[e] != '>')
  }

  /** From `i` on the line holds the tokens `ts`, with blanks between them where there are any. */
  ghost predicate Holds(s: string, i: nat, ts: seq<G.Tok<Span>>)
    decreases |ts|, 1
  {
    if ts == [] then Blanks(s, i, |s|) else exists q: nat, e: nat :: NextAt(s, i, q, e, ts)
  }

  ghost predicate NextAt(s: string, i: nat, q: nat, e: nat, ts: seq<G.Tok<Span>>)
    requires ts != []
    decreases |ts|, 0
  {
    Blanks(s, i, q) && TokenAt(s, q, e, ts[0]) && Holds(s, e, ts[1..])
  }

  lemma {:induction false} SkipBlanks(s: string, i: nat)
    requires i <= |s|
    ensures Blanks(s, i, Skip(s, i))
    decreases |s| - i
  {
    if i < |s| && White(s[i]) {
      SkipBlanks(s, i + 1);
    }
  }

  lemma {:induction false} SkipIs(s: string, i: nat, q: nat)
    requires Blanks(s, i, q) && (q < |s| ==> !White(s[q]))
    ensures Skip(s, i) == q
    decreases q - i
  {
    if i < q {
      SkipIs(s, i + 1, q);
    }
  }

  lemma HoldsNext(s: string, i: nat, q: nat, e: nat, t: G.Tok<Span>, ts: seq<G.Tok<Span>>)
    requires Blanks(s, i, q) && TokenAt(s, q, e, t) && Holds(s, e, ts)
    ensures Holds(s, i, [t] + ts)
  {
    hide Blanks, TokenAt;
    assert ([t] + ts)[1..] == ts;
    assert NextAt(s, i, q, e, [t] + ts);
  }

  lemma {:induction false} ScanHolds(s: string, i: nat)
    requires i <= |s|
    ensures Holds(s, i, Lex(s, i))
    decreases |s| - i
  {
    hide Lex, Holds, WordEnd, Skip;
    LexCases(s, i);
    var j := Skip(s, i);
    SkipBlanks(s, i);
    if j == |s| {
      NothingHeld(s, i);
    } else if s[j] == '>' && j + 1 < |s| && s[j + 1] == '>' {
      ScanHolds(s, j + 2);
      HoldsNext(s, i, j, j + 2, G.Sym('+'), Lex(s, j + 2));
    } else if Symbol(s[j]) {
      ScanHolds(s, j + 1);
      HoldsNext(s, i, j, j + 1, G.Sym(s[j]), Lex(s, j + 1));
    } else {
      var e := WordEnd(s, j);
      WordMaximal(s, j);
      ScanHolds(s, e);
      HoldsNext(s, i, j, e, G.Word(Span(j, e)), Lex(s, e));
    }
  }

  lemma NothingHeld(s: string, i: nat)
    requires Blanks(s, i, |s|)
    ensures Holds(s, i, [])
  {
  }

  lemma TokenIs(s: string, i: nat, q: nat, e: nat, t: G.Tok<Span>)
    requires Blanks(s, i, q) && TokenAt(s, q, e, t)
    ensures i <= |s| && Lex(s, i) == [t] + Lex(s, e)
  {
    hide Lex, Skip, WordEnd;
    LexCases(s, i);
    SkipIs(s, i, q);
    if t.Word? {
      if e < |s| {
        WordEnds(s, q, e);
      } else {
        WordToEnd(s, q);
      }
    }
  }

  lemma {:induction false} WordToEnd(s: string, i: nat)
    requires i <= |s| && forall k :: i <= k < |s| ==> Plain(s[k])
    ensures WordEnd(s, i) == |s|
    decreases |s| - i
  {
    if i < |s| {
      WordToEnd(s, i + 1);
    }
  }

  lemma FirstHeld(s: string, i: nat, ts: seq<G.Tok<Span>>) returns (q: nat, e: nat)
    requires Holds(s, i, ts) && ts != []
    ensures Blanks(s, i, q) && TokenAt(s, q, e, ts[0]) && Holds(s, e, ts[1..])
  {
    hide Blanks, TokenAt;
    q, e :| NextAt(s, i, q, e, ts);
  }

  /** The tokens of a line are the only ones that it holds. */
  lemma {:induction false} ScansExactly(s: string, i: nat, ts: seq<G.Tok<Span>>)
    requires i <= |s|
    ensures Holds(s, i, ts) <==> ts == Lex(s, i)
    decreases |ts|
  {
    hide Lex, TokenAt, Blanks;
    ScanHolds(s, i);
    if Holds(s, i, ts) {
      if ts == [] {
        LexCases(s, i);
        NoWord(s, i);
      } else {
        var q, e := FirstHeld(s, i, ts);
        TokenIs(s, i, q, e, ts[0]);
        TokenEnds(s, q, e, ts[0]);
        ScansExactly(s, e, ts[1..]);
        assert ts == [ts[0]] + ts[1..];
      }
    }
  }

  lemma NoWord(s: string, i: nat)
    requires Blanks(s, i, |s|)
    ensures Skip(s, i) == |s|
  {
    SkipIs(s, i, |s|);
  }

  lemma TokenEnds(s: string, q: nat, e: nat, t: G.Tok<Span>)
    requires TokenAt(s, q, e, t)
    ensures e <= |s|
  {
  }

  // ---- from tokens back to a line ---------------------------------------------------------------------------

  function Render(ts: seq<G.Tok<string>>): (s: string) {
    if ts == [] then [] else RenderTok(ts[0]) + Render(ts[1..])
  }

  function RenderTok(t: G.Tok<string>): (s: string) {
    match t
    case Sym(c) => [c, ' ']
    case Word(w) => w + [' ']
  }

  ghost predicate CleanWord(w: string) {
    w != [] && forall k :: 0 <= k < |w| ==> Plain(w[k])
  }

  ghost predicate CleanTok(t: G.Tok<string>) {
    match t
    case Sym(c) => Symbol(c)
    case Word(w) => CleanWord(w)
  }

  /** What a span of `s` says. */
  function Text(s: string): (f: Span -> string) {
    (sp: Span) => if sp.q <= sp.eq <= |s| then s[sp.q..sp.eq] else []
  }

  lemma Kinds(c: char)
    ensures White(' ') && (Symbol(c) ==> !White(c)) && Symbol('>') && !Symbol(' ')
  {
  }

  lemma LexSpace(s: string, i: nat)
    requires i < |s| && s[i] == ' '
    ensures Lex(s, i) == Lex(s, i + 1)
  {
    hide White, Symbol, Plain, WordEnd;
    Kinds(' ');
    assert Skip(s, i) == Skip(s, i + 1);
  }

  lemma LexSymbol(s: string, i: nat, c: char)
    requires i + 1 < |s| && s[i] == c && Symbol(c) && s[i + 1] == ' '
    ensures Lex(s, i) == [G.Sym(c)] + Lex(s, i + 2)
  {
    hide White, Symbol, Plain, WordEnd;
    Kinds(c);
    assert Skip(s, i) == i;
    LexSpace(s, i + 1);
  }

  lemma LexWord(s: string, i: nat, e: nat)
    requires i < e < |s| && (forall k :: i <= k < e ==> Plain(s[k])) && s[e] == ' '
    ensures Lex(s, i) == [G.Word(Span(i, e))] + Lex(s, e + 1)
  {
    Kinds(s[i]);
    assert Plain(s[i]) && !Plain(s[e]);
    hide White, Symbol, WordEnd;
    WordEnds(s, i, e);
    LexSpace(s, e);
    assert Skip(s, i) == i;
  }

  /** Reading a rendered token. */
  lemma LexOne(s: string, i: nat, t: G.Tok<string>, rest: string)
    requires CleanTok(t) && i <= |s| && s[i..] == RenderTok(t) + rest
    ensures i + |RenderTok(t)| <= |s| && s[i + |RenderTok(t)|..] == rest
    ensures Lex(s, i) != [] && MapTok(Text(s), Lex(s, i)[0]) == t
    ensures Lex(s, i)[1..] == Lex(s, i + |RenderTok(t)|)
  {
    hide White, Symbol, Plain, Lex;
    var r := RenderTok(t);
    var n := |r|;
    assert s[i..][n..] == rest;
    forall k | 0 <= k < n ensures s[i + k] == r[k] {
      assert s[i..][k] == r[k];
    }
    if t.Word? {
      var e := i + |t.w|;
      forall k | i <= k < e ensures Plain(s[k]) {
        assert s[i + (k - i)] == t.w[k - i];
      }
      assert s[i + (n - 1)] == ' ';
      LexWord(s, i, e);
      assert s[i..e] == t.w;
    } else {
      assert s[i + 0] == t.c && s[i + 1] == ' ';
      LexSymbol(s, i, t.c);
    }
  }

  lemma {:induction false} WordEnds(s: string, i: nat, e: nat)
    requires i <= e < |s| && (forall k :: i <= k < e ==> Plain(s[k])) && !Plain(s[e])
    ensures WordEnd(s, i) == e
    decreases e - i
  {
    if i < e {
      WordEnds(s, i + 1, e);
    }
  }

  lemma {:induction false} LexRender(s: string, i: nat, ts: seq<G.Tok<string>>)
    requires i <= |s| && s[i..] == Render(ts) && forall k :: 0 <= k < |ts| ==> CleanTok(ts[k])
    ensures MapToks(Text(s), Lex(s, i)) == ts
    decreases |ts|
  {
    hide Lex, CleanTok, RenderTok;
    if ts == [] {
      LexNothing(s, i);
    } else {
      LexOne(s, i, ts[0], Render(ts[1..]));
      LexRender(s, i + |RenderTok(ts[0])|, ts[1..]);
      var l := Lex(s, i);
      MapDrop(Text(s), l, 1);
      var m := MapToks(Text(s), l);
      assert m == [m[0]] + m[1..];
    }
  }

  lemma LexNothing(s: string, i: nat)
    requires i <= |s| && s[i..] == []
    ensures Lex(s, i) == []
  {
  }

  ghost predicate CleanCmd(t: G.Cmd<string>) {
    match t
    case Exec(args) => forall k :: 0 <= k < |args| ==> CleanWord(args[k])
    case Redir(cmd, file, _) => CleanCmd(cmd) && CleanWord(file)
    case Pipe(left, right) => CleanCmd(left) && CleanCmd(right)
    case List(left, right) => CleanCmd(left) && CleanCmd(right)
    case Back(cmd) => CleanCmd(cmd)
  }

  ghost predicate CleanToks(ts: seq<G.Tok<string>>) {
    forall k :: 0 <= k < |ts| ==> CleanTok(ts[k])
  }

  lemma {:induction false} ExecClean(t: G.Cmd<string>)
    requires CleanCmd(t)
    ensures CleanToks(G.ShowExec(t))
    decreases t, if G.Simple(t) then 0 else 4
  {
    match t
    case Exec(_) =>
    case Redir(cmd, _, _) => ExecClean(cmd);
    case _ => LineClean(t);
  }

  lemma {:induction false} PipeClean(t: G.Cmd<string>)
    requires CleanCmd(t)
    ensures CleanToks(G.ShowPipe(t))
    decreases t, if t.List? || t.Back? then 5 else 1
  {
    if t.Pipe? {
      ExecClean(t.left);
      PipeClean(t.right);
    } else {
      ExecClean(t);
    }
  }

  lemma {:induction false} BackClean(t: G.Cmd<string>)
    requires CleanCmd(t)
    ensures CleanToks(G.ShowBack(t))
    decreases t, if t.List? then 6 else 2
  {
    if t.Back? {
      BackClean(t.cmd);
    } else {
      PipeClean(t);
    }
  }

  lemma {:induction false} LineClean(t: G.Cmd<string>)
    requires CleanCmd(t)
    ensures CleanToks(G.ShowLine(t))
    decreases t, 3
  {
    if t.List? {
      BackClean(t.left);
      LineClean(t.right);
    } else {
      BackClean(t);
    }
  }

  /** The line that stands for a command. */
  function Print(t: G.Cmd<string>): (s: string) {
    Render(G.ShowLine(t))
  }

  /** Printing a command and parsing the line gives the command back: any tree, up to nine arguments each, words without
      blanks and symbols. */
  lemma RoundTrip(t: G.Cmd<string>)
    requires G.Fits(t) && CleanCmd(t)
    ensures var s := Print(t);
            var r := G.Parse(Lex(s, 0));
            r.Ok? && MapCmd(Text(s), r.value) == t
  {
    var s := Print(t);
    LineClean(t);
    assert s[0..] == s;
    LexRender(s, 0, G.ShowLine(t));
    LineMap(Text(s), Lex(s, 0));
    G.ShowParses(t);
  }
}
