/** Path names: skipelem and the elements it finds. */
module Paths {
  import opened Bytes
  import opened Dirs

  const SLASH: byte := 47

  // ---- splitting a path -------------------------------------------------------------------------------------

  function DropSlashes(path: seq<byte>): (r: seq<byte>)
    ensures |r| <= |path| && (r != [] ==> r[0] != SLASH)
  {
    if path != [] && path[0] == SLASH then DropSlashes(path[1..]) else path
  }

  /** Length of the first element of a path that starts with one. */
  function WordLength(path: seq<byte>): (n: nat)
    ensures n <= |path| && (n < |path| ==> path[n] == SLASH)
    ensures forall i :: 0 <= i < n ==> path[i] != SLASH
  {
    if path == [] || path[0] == SLASH then 0 else 1 + WordLength(path[1..])
  }

  datatype Elem = NoElem | Elem(name: Name, rest: seq<byte>)

  /** What skipelem computes. */
  function SkipElem(path: seq<byte>): (e: Elem)
    ensures e.Elem? ==> |e.rest| < |path| && |e.name| <= DIRSIZ
  {
    var s := DropSlashes(path);
    if s == [] then NoElem
    else
      var n := WordLength(s);
      Elem(Trunc(s[..n]), DropSlashes(s[n..]))
  }

  /** All elements, by repeated skipelem. */
  function Elems(path: seq<byte>): (names: seq<Name>)
    decreases |path|
  {
    var e := SkipElem(path);
    if e.NoElem? then [] else [e.name] + Elems(e.rest)
  }

  /** The pieces of a path between slashes, empty ones too. */
  function Pieces(path: seq<byte>): (ps: seq<seq<byte>>)
    ensures |ps| > 0
  {
    if path == [] then [[]]
    else if path[0] == SLASH then [[]] + Pieces(path[1..])
    else
      var more := Pieces(path[1..]);
      [[path[0]] + more[0]] + more[1..]
  }

  /** The pieces that are not empty, cut to the length of a directory's name field. */
  function Names(ps: seq<seq<byte>>): (names: seq<Name>) {
    if ps == [] then []
    else if ps[0] == [] then Names(ps[1..])
    else [Trunc(ps[0])] + Names(ps[1..])
  }

  lemma {:induction false} PiecesSlashes(path: seq<byte>)
    ensures Names(Pieces(path)) == Names(Pieces(DropSlashes(path)))
  {
    if path != [] && path[0] == SLASH {
      PiecesSlashes(path[1..]);
      assert Pieces(path)[1..] == Pieces(path[1..]);
    }
  }

  lemma {:induction false} PiecesWord(path: seq<byte>)
    ensures var n := WordLength(path);
            Pieces(path) == if n == |path| then [path] else [path[..n]] + Pieces(path[n + 1..])
  {
    if path != [] && path[0] != SLASH {
      PiecesWord(path[1..]);
      var n := WordLength(path);
      assert path[1..][..n - 1] == path[1..n];
      assert [path[0]] + path[1..n] == path[..n];
      if n == |path| {
        assert [path[0]] + path[1..] == path;
      } else {
        assert path[1..][n..] == path[n + 1..];
      }
    }
  }

  /** Iterating skipelem splits the path at its slashes and drops the empty pieces. */
  lemma {:induction false} ElemsSplit(path: seq<byte>)
    ensures Elems(path) == Names(Pieces(path))
    decreases |path|
  {
    var s := DropSlashes(path);
    PiecesSlashes(path);
    if s == [] {
      assert Pieces(s)[1..] == [];
    } else {
      var n := WordLength(s);
      PiecesWord(s);
      ElemsSplit(DropSlashes(s[n..]));
      PiecesSlashes(s[n..]);
      if n < |s| {
        assert s[n..][1..] == s[n + 1..];
        assert Pieces(s[n..])[1..] == Pieces(s[n + 1..]);
        assert Pieces(s)[1..] == Pieces(s[n + 1..]);
      } else {
        assert s[n..] == [] && Pieces(s)[1..] == [];
        assert s[..n] == s;
      }
    }
  }

  /** Past leading slashes. */
  method SkipSlashes(path: seq<byte>, i: nat) returns (j: nat)
    requires i <= |path|
    ensures i <= j <= |path| && path[j..] == DropSlashes(path[i..])
  {
    j := i;
    while j < |path| && path[j] == SLASH
      invariant i <= j <= |path| && DropSlashes(path[i..]) == DropSlashes(path[j..])
    {
      assert path[j..][1..] == path[j + 1..];
      j := j + 1;
    }
  }

  /** Past the element, to the next slash or the end. */
  method SkipWord(path: seq<byte>, i: nat) returns (j: nat)
    requires i <= |path|
    ensures i <= j <= |path| && j == i + WordLength(path[i..])
  {
    j := i;
    while j < |path| && path[j] != SLASH
      invariant i <= j <= |path| && i + WordLength(path[i..]) == j + WordLength(path[j..])
    {
      assert path[j..][1..] == path[j + 1..];
      j := j + 1;
    }
  }

  /** skipelem */
  method Skipelem(path: seq<byte>) returns (e: Elem)
    ensures e == SkipElem(path)
  {
    hide DropSlashes, WordLength;
    assert path[0..] == path;
    var s := SkipSlashes(path, 0);
    if s == |path| {
      return NoElem;
    }
    var t := SkipWord(path, s);
    var len := t - s;
    var name := if len >= DIRSIZ then path[s..s + DIRSIZ] else path[s..t];
    assert path[s..][..len] == path[s..t] && path[s..][len..] == path[t..];
    assert name == Trunc(path[s..t]);
    var rest := SkipSlashes(path, t);
    return Elem(name, path[rest..]);
  }
}
