/** What parsing does with words: it does not look at them, and it loses, invents and repeats none. */
module ShellWords {
  import opened ShellGrammar

  // ---- parsing commutes with any change of words ------------------------------------------------------------

  function MapTok<V, W>(f: V -> W, t: Tok<V>): (r: Tok<W>) {
    match t
    case Sym(c) => Sym(c)
    case Word(w) => Word(f(w))
  }

  function MapToks<V, W>(f: V -> W, ts: seq<Tok<V>>): (r: seq<Tok<W>>)
    ensures |r| == |ts| && forall i :: 0 <= i < |ts| ==> r[i] == MapTok(f, ts[i])
  {
    seq(|ts|, i requires 0 <= i < |ts| => MapTok(f, ts[i]))
  }

  function MapArgs<V, W>(f: V -> W, args: seq<V>): (r: seq<W>)
    ensures |r| == |args| && forall i :: 0 <= i < |args| ==> r[i] == f(args[i])
  {
    seq(|args|, i requires 0 <= i < |args| => f(args[i]))
  }

  function MapRds<V, W>(f: V -> W, rs: seq<Rd<V>>): (r: seq<Rd<W>>)
    ensures |r| == |rs| && forall i :: 0 <= i < |rs| ==> r[i] == Rd(f(rs[i].file), rs[i].out)
  {
    seq(|rs|, i requires 0 <= i < |rs| => Rd(f(rs[i].file), rs[i].out))
  }

  function MapCmd<V, W>(f: V -> W, t: Cmd<V>): (r: Cmd<W>) {
    match t
    case Exec(args) => Exec(MapArgs(f, args))
    case Redir(cmd, file, out) => Redir(MapCmd(f, cmd), f(file), out)
    case Pipe(left, right) => Pipe(MapCmd(f, left), MapCmd(f, right))
    case List(left, right) => List(MapCmd(f, left), MapCmd(f, right))
    case Back(cmd) => Back(MapCmd(f, cmd))
  }

  function MapResult<V, W>(f: V -> W, r: Result<Cmd<V>, V>): (q: Result<Cmd<W>, W>) {
    match r
    case Ok(value, rest) => Ok(MapCmd(f, value), MapToks(f, rest))
    case Panic => Panic
  }

  lemma MapPeek<V, W>(f: V -> W, ts: seq<Tok<V>>, toks: string)
    ensures Peek(MapToks(f, ts), toks) <==> Peek(ts, toks)
  {
  }

  lemma MapDrop<V, W>(f: V -> W, ts: seq<Tok<V>>, k: nat)
    requires k <= |ts|
    ensures MapToks(f, ts)[k..] == MapToks(f, ts[k..])
  {
  }

  lemma {:induction false} MapWrap<V, W>(f: V -> W, t: Cmd<V>, rs: seq<Rd<V>>)
    ensures MapCmd(f, Wrap(t, rs)) == Wrap(MapCmd(f, t), MapRds(f, rs))
    decreases |rs|
  {
    if rs != [] {
      var n := |rs| - 1;
      MapWrap(f, t, rs[..n]);
      assert MapRds(f, rs)[..n] == MapRds(f, rs[..n]);
    }
  }

  lemma {:induction false} RedirsMap<V, W>(f: V -> W, rs: seq<Rd<V>>, ts: seq<Tok<V>>)
    ensures var r := Redirs(rs, ts);
            Redirs(MapRds(f, rs), MapToks(f, ts)) == if r.Ok? then Ok(MapRds(f, r.value), MapToks(f, r.rest)) else Panic
    decreases |ts|
  {
    MapPeek(f, ts, "<>");
    if Peek(ts, "<>") && |ts| >= 2 && ts[1].Word? {
      var rs' := rs + [Rd(ts[1].w, ts[0].c != '<')];
      assert MapRds(f, rs') == MapRds(f, rs) + [Rd(f(ts[1].w), ts[0].c != '<')];
      MapDrop(f, ts, 2);
      RedirsMap(f, rs', ts[2..]);
    }
  }

  lemma {:induction false} ArgsMap<V, W>(f: V -> W, args: seq<V>, rs: seq<Rd<V>>, ts: seq<Tok<V>>)
    ensures Args(MapArgs(f, args), MapRds(f, rs), MapToks(f, ts)) == MapResult(f, Args(args, rs, ts))
    decreases |ts|
  {
    MapPeek(f, ts, "|)&;");
    MapWrap(f, Exec(args), rs);
    if !(ts == [] || Peek(ts, "|)&;")) && ts[0].Word? && |args| + 1 < MAXARGS {
      MapDrop(f, ts, 1);
      RedirsMap(f, rs, ts[1..]);
      var more := Redirs(rs, ts[1..]);
      if more.Ok? {
        var args' := args + [ts[0].w];
        assert MapArgs(f, args') == MapArgs(f, args) + [f(ts[0].w)];
        ArgsMap(f, args', more.value, more.rest);
      }
    }
  }

  lemma {:induction false} ExecMap<V, W>(f: V -> W, ts: seq<Tok<V>>)
    ensures ParseExec(MapToks(f, ts)) == MapResult(f, ParseExec(ts))
    decreases |ts|, 1
  {
    hide ParseBlock, Args, Redirs;
    MapPeek(f, ts, "(");
    if Peek(ts, "(") {
      BlockMap(f, ts);
    } else {
      RedirsMap(f, [], ts);
      assert MapRds(f, []) == [];
      var first := Redirs([], ts);
      if first.Ok? {
        ArgsMap(f, [], first.value, first.rest);
        assert MapArgs(f, []) == [];
      }
    }
  }

  lemma {:induction false} BlockMap<V, W>(f: V -> W, ts: seq<Tok<V>>)
    ensures ParseBlock(MapToks(f, ts)) == MapResult(f, ParseBlock(ts))
    decreases |ts|, 0
  {
    hide ParseLine, Redirs, Wrap;
    MapPeek(f, ts, "(");
    if Peek(ts, "(") {
      MapDrop(f, ts, 1);
      LineMap(f, ts[1..]);
      var line := ParseLine(ts[1..]);
      if line.Ok? {
        MapPeek(f, line.rest, ")");
        if Peek(line.rest, ")") {
          MapDrop(f, line.rest, 1);
          RedirsMap(f, [], line.rest[1..]);
          assert MapRds(f, []) == [];
          var after := Redirs([], line.rest[1..]);
          if after.Ok? {
            MapWrap(f, line.value, after.value);
          }
        }
      }
    }
  }

  lemma {:induction false} PipeMap<V, W>(f: V -> W, ts: seq<Tok<V>>)
    ensures ParsePipe(MapToks(f, ts)) == MapResult(f, ParsePipe(ts))
    decreases |ts|, 2
  {
    hide ParseExec;
    ExecMap(f, ts);
    var left := ParseExec(ts);
    if left.Ok? {
      MapPeek(f, left.rest, "|");
      if Peek(left.rest, "|") {
        MapDrop(f, left.rest, 1);
        PipeMap(f, left.rest[1..]);
      }
    }
  }

  lemma {:induction false} BacksMap<V, W>(f: V -> W, t: Cmd<V>, ts: seq<Tok<V>>)
    ensures Backs(MapCmd(f, t), MapToks(f, ts)) == MapResult(f, Backs(t, ts))
    decreases |ts|
  {
    MapPeek(f, ts, "&");
    if Peek(ts, "&") {
      MapDrop(f, ts, 1);
      BacksMap(f, Back(t), ts[1..]);
    }
  }

  lemma {:induction false} LineMap<V, W>(f: V -> W, ts: seq<Tok<V>>)
    ensures ParseLine(MapToks(f, ts)) == MapResult(f, ParseLine(ts))
    decreases |ts|, 3
  {
    hide ParsePipe, Backs;
    PipeMap(f, ts);
    var first := ParsePipe(ts);
    if first.Ok? {
      BacksMap(f, first.value, first.rest);
      var cmd := Backs(first.value, first.rest);
      MapPeek(f, cmd.rest, ";");
      if Peek(cmd.rest, ";") {
        MapDrop(f, cmd.rest, 1);
        LineMap(f, cmd.rest[1..]);
      }
    }
  }

  // ---- no word is lost, invented or repeated ----------------------------------------------------------------

  ghost function Bag<W>(ts: seq<Tok<W>>): (b: multiset<W>) {
    if ts == [] then multiset{} else (if ts[0].Word? then multiset{ts[0].w} else multiset{}) + Bag(ts[1..])
  }

  ghost function RdBag<W>(rs: seq<Rd<W>>): (b: multiset<W>) {
    if rs == [] then multiset{} else RdBag(rs[..|rs| - 1]) + multiset{rs[|rs| - 1].file}
  }

  ghost function CmdBag<W>(t: Cmd<W>): (b: multiset<W>) {
    match t
    case Exec(args) => multiset(args)
    case Redir(cmd, file, _) => CmdBag(cmd) + multiset{file}
    case Pipe(left, right) => CmdBag(left) + CmdBag(right)
    case List(left, right) => CmdBag(left) + CmdBag(right)
    case Back(cmd) => CmdBag(cmd)
  }

  lemma {:induction false} WrapBag<W>(t: Cmd<W>, rs: seq<Rd<W>>)
    ensures CmdBag(Wrap(t, rs)) == CmdBag(t) + RdBag(rs)
    decreases |rs|
  {
    if rs != [] {
      WrapBag(t, rs[..|rs| - 1]);
    }
  }

  lemma {:induction false} RedirsBag<W>(rs: seq<Rd<W>>, ts: seq<Tok<W>>)
    requires Redirs(rs, ts).Ok?
    ensures RdBag(rs) + Bag(ts) == RdBag(Redirs(rs, ts).value) + Bag(Redirs(rs, ts).rest)
    decreases |ts|
  {
    if Peek(ts, "<>") {
      var rs' := rs + [Rd(ts[1].w, ts[0].c != '<')];
      assert rs'[..|rs'| - 1] == rs;
      assert ts[1..][1..] == ts[2..] && ts[1..][0] == ts[1];
      assert Bag(ts) == Bag(ts[1..]) && Bag(ts[1..]) == multiset{ts[1].w} + Bag(ts[2..]);
      RedirsBag(rs', ts[2..]);
    }
  }

  lemma Shuffle<W>(a: multiset<W>, w: multiset<W>, r: multiset<W>, b: multiset<W>, r': multiset<W>, b': multiset<W>)
    requires r + b == r' + b'
    ensures a + r + (w + b) == a + w + r' + b'
  {
    assert a + r + (w + b) == a + w + (r + b);
    assert a + w + r' + b' == a + w + (r' + b');
  }

  lemma NoRds<W>()
    ensures RdBag<W>([]) == multiset{}
  {
  }

  lemma {:induction false} ArgsBag<W>(args: seq<W>, rs: seq<Rd<W>>, ts: seq<Tok<W>>)
    requires Args(args, rs, ts).Ok?
    ensures multiset(args) + RdBag(rs) + Bag(ts) == CmdBag(Args(args, rs, ts).value) + Bag(Args(args, rs, ts).rest)
    decreases |ts|
  {
    hide Redirs, RdBag, Wrap;
    WrapBag(Exec(args), rs);
    if !(ts == [] || Peek(ts, "|)&;")) {
      var w, more := ts[0].w, Redirs(rs, ts[1..]);
      RedirsBag(rs, ts[1..]);
      ArgsBag(args + [w], more.value, more.rest);
      assert multiset(args + [w]) == multiset(args) + multiset{w};
      Shuffle(multiset(args), multiset{w}, RdBag(rs), Bag(ts[1..]), RdBag(more.value), Bag(more.rest));
    }
  }

  lemma {:induction false} ExecBag<W>(ts: seq<Tok<W>>)
    requires ParseExec(ts).Ok?
    ensures Bag(ts) == CmdBag(ParseExec(ts).value) + Bag(ParseExec(ts).rest)
    decreases |ts|, 1
  {
    hide ParseBlock, Args, Redirs, Bag, RdBag, CmdBag;
    if Peek(ts, "(") {
      BlockBag(ts);
    } else {
      RedirsBag([], ts);
      NoRds<W>();
      var first := Redirs([], ts);
      ArgsBag([], first.value, first.rest);
      var none: seq<W> := [];
      assert multiset(none) + RdBag(first.value) + Bag(first.rest) == RdBag(first.value) + Bag(first.rest);
      assert multiset{} + Bag(ts) == Bag(ts);
    }
  }

  lemma PeekBag<W>(ts: seq<Tok<W>>, toks: string)
    requires Peek(ts, toks)
    ensures Bag(ts) == Bag(ts[1..])
  {
  }

  lemma {:induction false} BlockBag<W>(ts: seq<Tok<W>>)
    requires ParseBlock(ts).Ok?
    ensures Bag(ts) == CmdBag(ParseBlock(ts).value) + Bag(ParseBlock(ts).rest)
    decreases |ts|, 0
  {
    hide ParseLine, Redirs, Bag, RdBag, CmdBag, Wrap;
    PeekBag(ts, "(");
    LineBag(ts[1..]);
    var line := ParseLine(ts[1..]);
    PeekBag(line.rest, ")");
    var after := Redirs([], line.rest[1..]);
    RedirsBag([], line.rest[1..]);
    NoRds<W>();
    WrapBag(line.value, after.value);
    assert multiset{} + Bag(line.rest[1..]) == Bag(line.rest[1..]);
    assert CmdBag(line.value) + RdBag(after.value) + Bag(after.rest) == CmdBag(line.value)
           + (RdBag(after.value) + Bag(after.rest));
  }

  lemma {:induction false} PipeBag<W>(ts: seq<Tok<W>>)
    requires ParsePipe(ts).Ok?
    ensures Bag(ts) == CmdBag(ParsePipe(ts).value) + Bag(ParsePipe(ts).rest)
    decreases |ts|, 2
  {
    hide ParseExec, Bag;
    ExecBag(ts);
    var left := ParseExec(ts);
    if Peek(left.rest, "|") {
      PeekBag(left.rest, "|");
      PipeBag(left.rest[1..]);
    }
  }

  lemma {:induction false} BacksBag<W>(t: Cmd<W>, ts: seq<Tok<W>>)
    ensures CmdBag(t) + Bag(ts) == CmdBag(Backs(t, ts).value) + Bag(Backs(t, ts).rest)
    decreases |ts|
  {
    if Peek(ts, "&") {
      PeekBag(ts, "&");
      BacksBag(Back(t), ts[1..]);
    }
  }

  /** The words read are exactly the words in the command. */
  lemma {:induction false} LineBag<W>(ts: seq<Tok<W>>)
    requires ParseLine(ts).Ok?
    ensures Bag(ts) == CmdBag(ParseLine(ts).value) + Bag(ParseLine(ts).rest)
    decreases |ts|, 3
  {
    hide ParsePipe, Backs, Bag;
    PipeBag(ts);
    var first := ParsePipe(ts);
    BacksBag(first.value, first.rest);
    var cmd := Backs(first.value, first.rest);
    if Peek(cmd.rest, ";") {
      PeekBag(cmd.rest, ";");
      LineBag(cmd.rest[1..]);
    }
  }
}
