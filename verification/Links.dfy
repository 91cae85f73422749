/** Link counts: sys_link, sys_unlink, create and the end of iput, over the whole inode table. */
module Links {
  import opened Dirs

  const ROOT: nat := 1
  const DOT: Name := [46]
  const DOTDOT: Name := [46, 46]

  /** T_DIR, or T_FILE and T_DEV, or not in use. */
  datatype Typ = Free | Dir | Other(dev: bool)

  /** An inode: its type, its link count and, for a directory, its entries. */
  datatype Node = Node(typ: Typ, nlink: int, ents: seq<Ent>)

  /** A directory that can still be reached. */
  predicate Linked(n: Node) {
    n.typ == Dir && n.nlink > 0
  }

  predicate Names(e: Ent, x: int) {
    e.inum == x && e.name != DOT
  }

  /** Entries that name inode `x`, "." not counted. */
  ghost function CountIn(ents: seq<Ent>, x: int): (n: nat) {
    if ents == [] then 0 else CountIn(ents[..|ents| - 1], x) + if Names(ents[|ents| - 1], x) then 1 else 0
  }

  ghost function Share(n: Node, x: int): (c: nat) {
    if Linked(n) then CountIn(n.ents, x) else 0
  }

  /** Entries in linked directories that name inode `x`: ".." counts, "." does not. */
  ghost function Count(tab: seq<Node>, x: int): (n: nat) {
    if tab == [] then 0 else Count(tab[..|tab| - 1], x) + Share(tab[|tab| - 1], x)
  }

  // ---- counting ---------------------------------------------------------------------------------------------

  lemma {:induction false} CountInSet(ents: seq<Ent>, k: nat, e: Ent, x: int)
    requires k < |ents|
    ensures CountIn(ents[k := e], x) ==
              CountIn(ents, x) - (if Names(ents[k], x) then 1 else 0) + if Names(e, x) then 1 else 0
  {
    var n := |ents| - 1;
    if k == n {
      assert ents[k := e][..n] == ents[..n];
    } else {
      assert ents[k := e][..n] == ents[..n][k := e];
      CountInSet(ents[..n], k, e, x);
    }
  }

  lemma CountInPut(ents: seq<Ent>, k: nat, e: Ent, x: int)
    requires k <= |ents| && (k < |ents| ==> ents[k].inum == 0) && x != 0
    ensures CountIn(Put(ents, k, e), x) == CountIn(ents, x) + if Names(e, x) then 1 else 0
  {
    if k < |ents| {
      CountInSet(ents, k, e, x);
    } else {
      assert (ents + [e])[..|ents|] == ents;
    }
  }

  lemma {:induction false} CountSet(tab: seq<Node>, i: nat, n: Node, x: int)
    requires i < |tab|
    ensures Count(tab[i := n], x) == Count(tab, x) - Share(tab[i], x) + Share(n, x)
  {
    var m := |tab| - 1;
    if i == m {
      assert tab[i := n][..m] == tab[..m];
    } else {
      assert tab[i := n][..m] == tab[..m][i := n];
      CountSet(tab[..m], i, n, x);
    }
  }

  lemma {:induction false} ShareBelow(tab: seq<Node>, i: nat, x: int)
    requires i < |tab|
    ensures Share(tab[i], x) <= Count(tab, x)
  {
    if i < |tab| - 1 {
      ShareBelow(tab[..|tab| - 1], i, x);
    }
  }

  lemma SharesBelow(tab: seq<Node>, i: nat, j: nat, x: int)
    requires i < |tab| && j < |tab| && i != j
    ensures Share(tab[i], x) + Share(tab[j], x) <= Count(tab, x)
  {
    var none := Node(Free, 0, []);
    CountSet(tab, i, none, x);
    ShareBelow(tab[i := none], j, x);
  }

  lemma {:induction false} CountInSome(ents: seq<Ent>, k: nat, x: int)
    requires k < |ents| && Names(ents[k], x)
    ensures CountIn(ents, x) > 0
  {
    if k < |ents| - 1 {
      CountInSome(ents[..|ents| - 1], k, x);
    }
  }

  lemma {:induction false} CountInNone(ents: seq<Ent>, x: int)
    requires forall k :: 0 <= k < |ents| ==> !Names(ents[k], x)
    ensures CountIn(ents, x) == 0
  {
    if ents != [] {
      CountInNone(ents[..|ents| - 1], x);
    }
  }

  /** One entry names `x`. */
  lemma CountInOne(ents: seq<Ent>, k: nat, x: int)
    requires k < |ents| && Names(ents[k], x) && x != 0
    requires forall l :: 0 <= l < |ents| && l != k ==> !Names(ents[l], x)
    ensures CountIn(ents, x) == 1
  {
    CountInSet(ents, k, Ent(0, []), x);
    CountInNone(ents[k := Ent(0, [])], x);
  }

  lemma {:induction false} CountNone(tab: seq<Node>, x: int)
    requires forall d :: 0 <= d < |tab| ==> Share(tab[d], x) == 0
    ensures Count(tab, x) == 0
  {
    if tab != [] {
      CountNone(tab[..|tab| - 1], x);
    }
  }

  // ---- what holds between system calls ----------------------------------------------------------------------

  /** "." and ".." come first; no other entry has those names, or names the root. */
  ghost predicate Shape(tab: seq<Node>, d: int)
    requires 0 <= d < |tab|
  {
    var ents := tab[d].ents;
    && |ents| >= 2 && ents[0] == Ent(d, DOT) && ents[1].name == DOTDOT && 0 < ents[1].inum < |tab| && NoDup(ents)
    && (d != ROOT ==> ents[1].inum != d)
    && forall k :: 2 <= k < |ents| && ents[k].inum != 0 ==> 0 < ents[k].inum < |tab| && ents[k].inum != ROOT
  }

  /** Entry `k` of directory `p` names directory `c`. */
  ghost predicate NamedAt(tab: seq<Node>, p: int, k: int, c: int) {
    0 <= p < |tab| && Linked(tab[p]) && 2 <= k < |tab[p].ents| && tab[p].ents[k].inum == c
  }

  ghost predicate Shapes(tab: seq<Node>) {
    && ROOT < |tab| && tab[0].typ == Free && Linked(tab[ROOT])
    && (forall x :: 0 <= x < |tab| && tab[x].typ == Free ==> tab[x].nlink == 0)
    && (forall d :: 0 <= d < |tab| && tab[d].typ == Dir ==> Shape(tab, d))
    && tab[ROOT].ents[1].inum == ROOT
  }

  /** A directory named in a linked directory is linked, and its ".." is that directory. */
  ghost predicate Down(tab: seq<Node>) {
    forall d, k :: 0 <= d < |tab| && Linked(tab[d]) && 2 <= k < |tab[d].ents| ==>
      var c := tab[d].ents[k].inum;
      0 < c < |tab| && tab[c].typ == Dir ==> Linked(tab[c]) && |tab[c].ents| >= 2 && tab[c].ents[1].inum == d
  }

  /** Every linked directory but the root is named in its "..". */
  ghost predicate Up(tab: seq<Node>) {
    forall c :: 0 <= c < |tab| && Linked(tab[c]) && c != ROOT && |tab[c].ents| >= 2 ==>
      exists k :: NamedAt(tab, tab[c].ents[1].inum, k, c)
  }

  /** No directory is named twice. */
  ghost predicate Once(tab: seq<Node>) {
    forall d, k, l ::
      0 <= d < |tab| && Linked(tab[d]) && 2 <= k < l < |tab[d].ents| && tab[d].ents[k].inum == tab[d].ents[l].inum ==>
      var c := tab[d].ents[k].inum;
      !(0 < c < |tab| && tab[c].typ == Dir)
  }

  /** Every link count is the number of entries that name the inode. */
  ghost predicate Counted(tab: seq<Node>) {
    forall x :: 0 < x < |tab| ==> tab[x].nlink == Count(tab, x)
  }

  ghost predicate Inv(tab: seq<Node>) {
    Shapes(tab) && Down(tab) && Up(tab) && Once(tab) && Counted(tab)
  }

  /** The dots are taken, so a new name goes elsewhere, and is neither of them. */
  lemma DotsTaken(tab: seq<Node>, d: int, name: Name)
    requires 0 < d < |tab| && Shape(tab, d)
    ensures FirstFree(tab[d].ents) >= 2 && Get(tab[d].ents, DOT) == d && Get(tab[d].ents, DOTDOT) == tab[d].ents[1].inum
    ensures Get(tab[d].ents, name) == 0 ==> name != DOT && name != DOTDOT
  {
    GetIs(tab[d].ents, DOT, 0);
    GetIs(tab[d].ents, DOTDOT, 1);
  }

  /** Free entries count for nothing. */
  lemma {:induction false} CountInFree(ents: seq<Ent>, n: nat, x: int)
    requires n <= |ents| && x != 0 && forall k :: n <= k < |ents| ==> ents[k].inum == 0
    ensures CountIn(ents, x) == CountIn(ents[..n], x)
  {
    if n < |ents| {
      CountInFree(ents[..|ents| - 1], n, x);
      assert ents[..|ents| - 1][..n] == ents[..n];
    } else {
      assert ents[..n] == ents;
    }
  }

  /** The root directory alone, as mkfs leaves it: the dots, and free entries. */
  lemma RootOnly(tab: seq<Node>)
    requires ROOT < |tab| && tab[ROOT].typ == Dir && tab[ROOT].nlink == 1 && |tab[ROOT].ents| >= 2
    requires tab[ROOT].ents[0] == Ent(ROOT, DOT) && tab[ROOT].ents[1] == Ent(ROOT, DOTDOT)
    requires forall k :: 2 <= k < |tab[ROOT].ents| ==> tab[ROOT].ents[k].inum == 0
    requires forall x :: 0 <= x < |tab| && x != ROOT ==> tab[x] == Node(Free, 0, [])
    ensures Inv(tab) && RemovedEmpty(tab)
  {
    forall x | 0 < x < |tab| ensures tab[x].nlink == Count(tab, x) {
      var none := Node(Free, 0, []);
      CountInFree(tab[ROOT].ents, 2, x);
      assert tab[ROOT].ents[..2] == [Ent(ROOT, DOT), Ent(ROOT, DOTDOT)];
      NewDirShare(ROOT, ROOT, x);
      CountSet(tab, ROOT, none, x);
      CountNone(tab[ROOT := none], x);
    }
    hide Count;
    assert Shape(tab, ROOT);
  }

  // ---- link -------------------------------------------------------------------------------------------------

  ghost function AddEntry(tab: seq<Node>, d: int, name: Name, x: int): (r: seq<Node>)
    requires 0 <= d < |tab|
  {
    tab[d := tab[d].(ents := Add(tab[d].ents, name, x))]
  }

  ghost function Bump(tab: seq<Node>, x: int, n: int): (r: seq<Node>)
    requires 0 <= x < |tab|
  {
    tab[x := tab[x].(nlink := tab[x].nlink + n)]
  }

  /** What sys_link leaves. */
  ghost function AfterLink(tab: seq<Node>, ip: int, dp: int, name: Name): (r: seq<Node>)
    requires 0 <= ip < |tab| && 0 <= dp < |tab|
  {
    AddEntry(Bump(tab, ip, 1), dp, name, ip)
  }

  ghost predicate CanLink(tab: seq<Node>, ip: int, dp: int, name: Name) {
    && Inv(tab) && 0 < ip < |tab| && 0 < dp < |tab| && tab[ip].typ.Other? && tab[dp].typ == Dir
    && Get(tab[dp].ents, name) == 0
  }

  lemma LinkCount(tab: seq<Node>, ip: int, dp: int, name: Name, x: int)
    requires CanLink(tab, ip, dp, name) && x != 0
    ensures Count(AfterLink(tab, ip, dp, name), x) == Count(tab, x) + if x == ip && Linked(tab[dp]) then 1 else 0
  {
    var t := Bump(tab, ip, 1);
    CountSet(tab, ip, t[ip], x);
    CountSet(t, dp, t[dp].(ents := Add(t[dp].ents, name, ip)), x);
    DotsTaken(tab, dp, name);
    CountInPut(t[dp].ents, FirstFree(t[dp].ents), Ent(ip, name), x);
  }

  lemma AddShape(tab: seq<Node>, r: seq<Node>, d: int, name: Name, x: int)
    requires 0 < d < |tab| && |r| == |tab| && Shape(tab, d) && r[d].ents == Add(tab[d].ents, name, x)
    requires Get(tab[d].ents, name) == 0 && 0 < x < |tab| && x != ROOT
    ensures Shape(r, d) && r[d].ents[1] == tab[d].ents[1]
  {
    DotsTaken(tab, d, name);
    AddGets(tab[d].ents, name, x, name);
  }

  lemma LinkShapes(tab: seq<Node>, ip: int, dp: int, name: Name)
    requires CanLink(tab, ip, dp, name)
    ensures Shapes(AfterLink(tab, ip, dp, name))
  {
    var r := AfterLink(tab, ip, dp, name);
    hide Down, Up, Once, Counted, Add;
    AddShape(tab, r, dp, name, ip);
    hide Add;
    forall d | 0 <= d < |r| && r[d].typ == Dir ensures Shape(r, d) {
      assert Shape(tab, d);
    }
  }

  /** Entries of `r` are entries of `tab`, or the new one, which names `x`. */
  ghost predicate OneNew(tab: seq<Node>, r: seq<Node>, dp: int, k: int, x: int) {
    && |r| == |tab| && 0 <= dp < |tab| && 2 <= k < |r[dp].ents| && r[dp].ents[k].inum == x
    && (forall d :: 0 <= d < |tab| && d != dp ==> r[d].ents == tab[d].ents)
    && |tab[dp].ents| <= |r[dp].ents| && (k < |tab[dp].ents| ==> tab[dp].ents[k].inum == 0)
    && forall l :: 0 <= l < |r[dp].ents| && l != k ==> l < |tab[dp].ents| && r[dp].ents[l] == tab[dp].ents[l]
  }

  lemma AddIsNew(tab: seq<Node>, r: seq<Node>, dp: int, name: Name, x: int)
    requires |r| == |tab| && 0 < dp < |tab| && Shape(tab, dp) && r[dp].ents == Add(tab[dp].ents, name, x)
    requires forall d :: 0 <= d < |tab| && d != dp ==> r[d].ents == tab[d].ents
    ensures OneNew(tab, r, dp, FirstFree(tab[dp].ents), x)
  {
    DotsTaken(tab, dp, name);
  }

  ghost predicate SameDirs(tab: seq<Node>, r: seq<Node>) {
    |r| == |tab| && forall d :: 0 <= d < |tab| ==> r[d].typ == tab[d].typ && Linked(r[d]) == Linked(tab[d])
  }

  lemma ShapeOf(tab: seq<Node>, d: int)
    requires Shapes(tab) && 0 <= d < |tab| && tab[d].typ == Dir
    ensures Shape(tab, d) && d != 0
  {
  }

  /** A new entry for something that is not a directory. */
  lemma NewFileDown(tab: seq<Node>, r: seq<Node>, dp: int, k: int, x: int)
    requires Shapes(tab) && Down(tab) && OneNew(tab, r, dp, k, x) && SameDirs(tab, r) && 0 < x < |tab|
             && tab[x].typ.Other?
    ensures Down(r)
  {
    forall d, l | 0 <= d < |r| && Linked(r[d]) && 2 <= l < |r[d].ents|
      ensures var c := r[d].ents[l].inum;
              0 < c < |r| && r[c].typ == Dir ==> Linked(r[c]) && |r[c].ents| >= 2 && r[c].ents[1].inum == d
    {
      if !(d == dp && l == k) {
        var c := tab[d].ents[l].inum;
        assert r[d].ents[l] == tab[d].ents[l];
        assert 0 < c < |tab| && tab[c].typ == Dir ==> r[c].ents[1] == tab[c].ents[1];
      }
    }
  }

  lemma NewUp(tab: seq<Node>, r: seq<Node>, dp: int, k: int, x: int, c: int)
    requires Shapes(tab) && Up(tab) && OneNew(tab, r, dp, k, x) && 0 <= c < |tab| && Linked(tab[c]) && c != ROOT
    requires |r| == |tab| && forall d :: 0 <= d < |tab| && Linked(tab[d]) ==> Linked(r[d])
    ensures |r[c].ents| >= 2 && r[c].ents[1] == tab[c].ents[1] && exists l :: NamedAt(r, r[c].ents[1].inum, l, c)
  {
    assert Shape(tab, c) && r[c].ents[1] == tab[c].ents[1];
    var l :| NamedAt(tab, tab[c].ents[1].inum, l, c);
    assert NamedAt(r, r[c].ents[1].inum, l, c);
  }

  lemma NewFileUp(tab: seq<Node>, r: seq<Node>, dp: int, k: int, x: int)
    requires Shapes(tab) && Up(tab) && OneNew(tab, r, dp, k, x) && SameDirs(tab, r)
    ensures Up(r)
  {
    hide Shapes, OneNew, NamedAt;
    forall c | 0 <= c < |r| && Linked(r[c]) && c != ROOT && |r[c].ents| >= 2
      ensures exists l :: NamedAt(r, r[c].ents[1].inum, l, c)
    {
      NewUp(tab, r, dp, k, x, c);
    }
  }

  /** No entry of a linked directory names `x`, the dots aside. */
  ghost predicate Unnamed(tab: seq<Node>, x: int) {
    forall d, l :: 0 <= d < |tab| && Linked(tab[d]) && 2 <= l < |tab[d].ents| ==> tab[d].ents[l].inum != x
  }

  lemma NewOnce(tab: seq<Node>, r: seq<Node>, dp: int, k: int, x: int)
    requires Once(tab) && OneNew(tab, r, dp, k, x) && |r| == |tab| && 0 < x < |tab|
    requires forall d :: 0 <= d < |tab| && d != x ==> r[d].typ == tab[d].typ && Linked(r[d]) == Linked(tab[d])
    requires r[x].typ == Dir ==> |r[x].ents| <= 2 && dp != x && Unnamed(tab, x)
    requires r[x].typ != Dir ==> tab[x].typ != Dir
    ensures Once(r)
  {
    forall d, a, b | 0 <= d < |r| && Linked(r[d]) && 2 <= a < b < |r[d].ents| && r[d].ents[a].inum == r[d].ents[b].inum
      ensures var c := r[d].ents[a].inum; !(0 < c < |r| && r[c].typ == Dir)
    {
      if d != dp || (a != k && b != k) {
        assert r[d].ents[a] == tab[d].ents[a] && r[d].ents[b] == tab[d].ents[b];
      }
    }
  }

  /** A link keeps every count right exactly when the directory it is made in is linked. */
  lemma LinkKeeps(tab: seq<Node>, ip: int, dp: int, name: Name)
    requires CanLink(tab, ip, dp, name)
    ensures Inv(AfterLink(tab, ip, dp, name)) <==> Linked(tab[dp])
  {
    hide Shapes, Shape, Down, Up, Once, Count, Add, OneNew;
    var r := AfterLink(tab, ip, dp, name);
    forall x | 0 < x < |tab| ensures Count(r, x) == Count(tab, x) + if x == ip && Linked(tab[dp]) then 1 else 0 {
      LinkCount(tab, ip, dp, name, x);
    }
    ShapeOf(tab, dp);
    LinkShapes(tab, ip, dp, name);
    AddIsNew(tab, r, dp, name, ip);
    var k := FirstFree(tab[dp].ents);
    NewFileDown(tab, r, dp, k, ip);
    NewFileUp(tab, r, dp, k, ip);
    NewOnce(tab, r, dp, k, ip);
  }

  // ---- create -----------------------------------------------------------------------------------------------

  ghost predicate CanCreate(tab: seq<Node>, x: int, dp: int, name: Name) {
    && Inv(tab) && 0 < x < |tab| && 0 < dp < |tab| && tab[x].typ == Free && tab[dp].typ == Dir
    && Get(tab[dp].ents, name) == 0
  }

  /** ialloc's zeroed inode counts for nothing. */
  lemma AllocKeeps(tab: seq<Node>, x: int, dp: int, name: Name, dev: bool)
    requires CanCreate(tab, x, dp, name)
    ensures CanLink(tab[x := Node(Other(dev), 0, [])], x, dp, name)
  {
    var r := tab[x := Node(Other(dev), 0, [])];
    forall y | 0 < y < |tab| ensures r[y].nlink == Count(r, y) {
      CountSet(tab, x, r[x], y);
    }
    hide Count;
    AllocShapes(tab, x, dev);
    AllocTree(tab, x, dev);
  }

  lemma AllocShapes(tab: seq<Node>, x: int, dev: bool)
    requires Shapes(tab) && 0 < x < |tab| && tab[x].typ == Free
    ensures Shapes(tab[x := Node(Other(dev), 0, [])])
  {
    var r := tab[x := Node(Other(dev), 0, [])];
    forall d | 0 <= d < |r| && r[d].typ == Dir ensures Shape(r, d) {
      assert Shape(tab, d);
    }
  }

  lemma UpCarry(tab: seq<Node>, r: seq<Node>, c: int)
    requires Up(tab) && 0 <= c < |tab| && |r| == |tab| && Linked(tab[c]) && c != ROOT && |tab[c].ents| >= 2
    requires |r[c].ents| >= 2 && r[c].ents[1] == tab[c].ents[1]
    requires forall p, k :: NamedAt(tab, p, k, c) ==> NamedAt(r, p, k, c)
    ensures exists k :: NamedAt(r, r[c].ents[1].inum, k, c)
  {
    hide NamedAt;
    var k :| NamedAt(tab, tab[c].ents[1].inum, k, c);
    assert NamedAt(r, r[c].ents[1].inum, k, c);
  }

  lemma AllocTree(tab: seq<Node>, x: int, dev: bool)
    requires Shapes(tab) && Down(tab) && Up(tab) && Once(tab) && 0 < x < |tab| && tab[x].typ == Free
    ensures var r := tab[x := Node(Other(dev), 0, [])]; Down(r) && Up(r) && Once(r)
  {
    var r := tab[x := Node(Other(dev), 0, [])];
    AllocUp(tab, x, dev);
    hide Up;
    assert Down(r);
    assert Once(r);
  }

  lemma AllocUp(tab: seq<Node>, x: int, dev: bool)
    requires Shapes(tab) && Up(tab) && 0 < x < |tab| && tab[x].typ == Free
    ensures Up(tab[x := Node(Other(dev), 0, [])])
  {
    var r := tab[x := Node(Other(dev), 0, [])];
    hide Up;
    forall c | 0 <= c < |r| && Linked(r[c]) && c != ROOT && |r[c].ents| >= 2
      ensures exists l :: NamedAt(r, r[c].ents[1].inum, l, c)
    {
      UpCarry(tab, r, c);
    }
    UpIs(r);
  }

  lemma UpIs(r: seq<Node>)
    requires forall c :: 0 <= c < |r| && Linked(r[c]) && c != ROOT && |r[c].ents| >= 2 ==>
               exists l :: NamedAt(r, r[c].ents[1].inum, l, c)
    ensures Up(r)
  {
  }

  ghost function AfterCreate(tab: seq<Node>, x: int, dp: int, name: Name, dev: bool): (r: seq<Node>)
    requires 0 <= x < |tab| && 0 <= dp < |tab|
  {
    AfterLink(tab[x := Node(Other(dev), 0, [])], x, dp, name)
  }

  lemma CreateKeeps(tab: seq<Node>, x: int, dp: int, name: Name, dev: bool)
    requires CanCreate(tab, x, dp, name)
    ensures Inv(AfterCreate(tab, x, dp, name, dev)) <==> Linked(tab[dp])
  {
    AllocKeeps(tab, x, dp, name, dev);
    LinkKeeps(tab[x := Node(Other(dev), 0, [])], x, dp, name);
  }

  /** What a mkdir leaves. */
  ghost function AfterMkdir(tab: seq<Node>, x: int, dp: int, name: Name): (r: seq<Node>)
    requires 0 <= x < |tab| && 0 <= dp < |tab|
  {
    AddEntry(Bump(tab[x := Node(Dir, 1, [Ent(x, DOT), Ent(dp, DOTDOT)])], dp, 1), dp, name, x)
  }

  lemma NewDirShare(x: int, dp: int, y: int)
    requires y != 0
    ensures Share(Node(Dir, 1, [Ent(x, DOT), Ent(dp, DOTDOT)]), y) == if y == dp then 1 else 0
  {
    var ents := [Ent(x, DOT), Ent(dp, DOTDOT)];
    assert ents[..1] == [Ent(x, DOT)] && [Ent(x, DOT)][..0] == [];
    assert CountIn([Ent(x, DOT)], y) == 0;
  }

  lemma MkdirCount(tab: seq<Node>, x: int, dp: int, name: Name, y: int)
    requires CanCreate(tab, x, dp, name) && y != 0 && Linked(tab[dp])
    ensures Count(AfterMkdir(tab, x, dp, name), y) ==
              Count(tab, y) + (if y == x then 1 else 0) + if y == dp then 1 else 0
  {
    var n := Node(Dir, 1, [Ent(x, DOT), Ent(dp, DOTDOT)]);
    var t := tab[x := n];
    var u := Bump(t, dp, 1);
    CountSet(tab, x, n, y);
    NewDirShare(x, dp, y);
    CountSet(t, dp, u[dp], y);
    CountSet(u, dp, u[dp].(ents := Add(u[dp].ents, name, x)), y);
    DotsTaken(tab, dp, name);
    CountInPut(u[dp].ents, FirstFree(u[dp].ents), Ent(x, name), y);
  }

  lemma MkdirShapes(tab: seq<Node>, x: int, dp: int, name: Name)
    requires CanCreate(tab, x, dp, name)
    ensures Shapes(AfterMkdir(tab, x, dp, name))
  {
    hide Down, Up, Once, Counted, Add;
    var r := AfterMkdir(tab, x, dp, name);
    AddShape(tab, r, dp, name, x);
    forall d | 0 <= d < |r| && r[d].typ == Dir ensures Shape(r, d) {
      assert d != x ==> Shape(tab, d);
    }
  }

  /** No entry names an inode whose count is 0. */
  lemma ZeroUnnamed(tab: seq<Node>, x: int)
    requires Shapes(tab) && Counted(tab) && 0 < x < |tab| && tab[x].nlink == 0
    ensures Unnamed(tab, x)
    ensures forall d :: 0 <= d < |tab| && Linked(tab[d]) && |tab[d].ents| >= 2 ==> tab[d].ents[1].inum != x
  {
    hide Count, CountIn;
    forall d, l | 0 <= d < |tab| && Linked(tab[d]) && 1 <= l < |tab[d].ents| ensures tab[d].ents[l].inum != x {
      assert Shape(tab, d);
      if tab[d].ents[l].inum == x {
        CountInSome(tab[d].ents, l, x);
        ShareBelow(tab, d, x);
      }
    }
  }

  ghost predicate IsNewDir(n: Node, x: int, dp: int) {
    n == Node(Dir, 1, [Ent(x, DOT), Ent(dp, DOTDOT)])
  }

  lemma MkdirTree(tab: seq<Node>, r: seq<Node>, x: int, dp: int, k: int)
    requires Shapes(tab) && Down(tab) && Up(tab) && Once(tab) && 0 <= dp < |tab| && Linked(tab[dp]) && Unnamed(tab, x)
             && 0 < x < |tab| && x != dp
    requires tab[x].typ == Free && |r| == |tab| && IsNewDir(r[x], x, dp) && OneNew(tab[x := r[x]], r, dp, k, x)
    requires forall d :: 0 <= d < |tab| && d != x ==> r[d].typ == tab[d].typ && Linked(r[d]) == Linked(tab[d])
    ensures Down(r) && Up(r) && Once(r)
  {
    MkdirDown(tab, r, x, dp, k);
    MkdirUp(tab, r, x, dp, k);
    MkdirOnce(tab, r, x, dp, k);
  }

  lemma MkdirDown(tab: seq<Node>, r: seq<Node>, x: int, dp: int, k: int)
    requires Shapes(tab) && Down(tab) && Unnamed(tab, x) && 0 < x < |tab| && x != dp
    requires tab[x].typ == Free && |r| == |tab| && IsNewDir(r[x], x, dp) && OneNew(tab[x := r[x]], r, dp, k, x)
    requires forall d :: 0 <= d < |tab| && d != x ==> r[d].typ == tab[d].typ && Linked(r[d]) == Linked(tab[d])
    ensures Down(r)
  {
    forall d, l | 0 <= d < |r| && Linked(r[d]) && 2 <= l < |r[d].ents|
      ensures var c := r[d].ents[l].inum;
              0 < c < |r| && r[c].typ == Dir ==> Linked(r[c]) && |r[c].ents| >= 2 && r[c].ents[1].inum == d
    {
      if !(d == dp && l == k) {
        var c := tab[d].ents[l].inum;
        assert d != x && r[d].ents[l] == tab[d].ents[l] && c != x;
        assert 0 < c < |tab| && tab[c].typ == Dir ==> r[c].ents[1] == tab[c].ents[1];
      }
    }
  }

  lemma MkdirUp(tab: seq<Node>, r: seq<Node>, x: int, dp: int, k: int)
    requires Shapes(tab) && Up(tab) && 0 <= dp < |tab| && Linked(tab[dp]) && 0 < x < |tab| && x != dp
    requires tab[x].typ == Free && |r| == |tab| && IsNewDir(r[x], x, dp) && OneNew(tab[x := r[x]], r, dp, k, x)
    requires forall d :: 0 <= d < |tab| && d != x ==> r[d].typ == tab[d].typ && Linked(r[d]) == Linked(tab[d])
    ensures Up(r)
  {
    hide Up;
    forall c | 0 <= c < |r| && Linked(r[c]) && c != ROOT && |r[c].ents| >= 2
      ensures exists l :: NamedAt(r, r[c].ents[1].inum, l, c)
    {
      if c == x {
        assert r[c].ents[1].inum == dp;
        assert NamedAt(r, r[c].ents[1].inum, k, c);
      } else {
        assert Shape(tab, c) && r[c].ents[1] == tab[c].ents[1];
        MkdirNamed(tab, r, x, dp, k, c);
        UpCarry(tab, r, c);
      }
    }
    UpIs(r);
  }

  lemma MkdirNamed(tab: seq<Node>, r: seq<Node>, x: int, dp: int, k: int, c: int)
    requires 0 < x < |tab| && x != dp && tab[x].typ == Free && |r| == |tab| && OneNew(tab[x := r[x]], r, dp, k, x)
             && c != 0
    requires forall d :: 0 <= d < |tab| && d != x ==> r[d].typ == tab[d].typ && Linked(r[d]) == Linked(tab[d])
    ensures forall p, l :: NamedAt(tab, p, l, c) ==> NamedAt(r, p, l, c)
  {
    forall p, l | NamedAt(tab, p, l, c) ensures NamedAt(r, p, l, c) {
      assert p != x && !(p == dp && l == k);
      assert r[p].ents[l] == tab[p].ents[l];
    }
  }

  lemma MkdirOnce(tab: seq<Node>, r: seq<Node>, x: int, dp: int, k: int)
    requires Once(tab) && Unnamed(tab, x) && 0 < x < |tab| && x != dp
    requires tab[x].typ == Free && |r| == |tab| && IsNewDir(r[x], x, dp) && OneNew(tab[x := r[x]], r, dp, k, x)
    requires forall d :: 0 <= d < |tab| && d != x ==> r[d].typ == tab[d].typ && Linked(r[d]) == Linked(tab[d])
    ensures Once(r)
  {
    forall d, a, b | 0 <= d < |r| && Linked(r[d]) && 2 <= a < b < |r[d].ents| && r[d].ents[a].inum == r[d].ents[b].inum
      ensures var c := r[d].ents[a].inum; !(0 < c < |r| && r[c].typ == Dir)
    {
      assert d != x;
      assert !(d == dp && a == k) ==> r[d].ents[a] == tab[d].ents[a];
      assert !(d == dp && b == k) ==> r[d].ents[b] == tab[d].ents[b];
    }
  }

  /** mkdir in a directory that is no longer linked ties the two directories to each other and to nothing else. */
  lemma MkdirLost(tab: seq<Node>, x: int, dp: int, name: Name)
    requires CanCreate(tab, x, dp, name) && !Linked(tab[dp])
    ensures !Inv(AfterMkdir(tab, x, dp, name))
  {
    var r := AfterMkdir(tab, x, dp, name);
    ShapeOf(tab, dp);
    CountNonNegative(tab, dp);
    assert tab[dp].nlink == 0 && Linked(r[dp]) && dp != ROOT;
    ZeroUnnamed(tab, dp);
    DotsTaken(tab, dp, name);
    var p := r[dp].ents[1].inum;
    forall k ensures !NamedAt(r, p, k, dp) {
      if 0 <= p < |r| && p != dp && p != x {
        assert r[p] == tab[p];
      }
    }
  }

  lemma CountNonNegative(tab: seq<Node>, x: int)
    requires Counted(tab) && 0 < x < |tab|
    ensures tab[x].nlink >= 0
  {
  }

  lemma MkdirKeeps(tab: seq<Node>, x: int, dp: int, name: Name)
    requires CanCreate(tab, x, dp, name)
    ensures Inv(AfterMkdir(tab, x, dp, name)) <==> Linked(tab[dp])
  {
    hide Shapes, Shape, Down, Up, Once, Count, Add, OneNew, Unnamed;
    if Linked(tab[dp]) {
      var r := AfterMkdir(tab, x, dp, name);
      forall y | 0 < y < |tab| ensures r[y].nlink == Count(r, y) {
        FreeCount(tab, x);
        MkdirCount(tab, x, dp, name, y);
      }
      ShapeOf(tab, dp);
      MkdirShapes(tab, x, dp, name);
      FreeCount(tab, x);
      ZeroUnnamed(tab, x);
      ShapeCarry(tab, tab[x := r[x]], dp);
      AddIsNew(tab[x := r[x]], r, dp, name, x);
      MkdirTree(tab, r, x, dp, FirstFree(tab[dp].ents));
    } else {
      MkdirLost(tab, x, dp, name);
    }
  }

  lemma FreeCount(tab: seq<Node>, x: int)
    requires Shapes(tab) && 0 <= x < |tab| && tab[x].typ == Free
    ensures tab[x].nlink == 0
  {
  }

  lemma ShapeCarry(tab: seq<Node>, r: seq<Node>, d: int)
    requires 0 <= d < |tab| && |r| == |tab| && r[d] == tab[d] && Shape(tab, d)
    ensures Shape(r, d)
  {
  }

  // ---- unlink -----------------------------------------------------------------------------------------------

  /** What sys_unlink leaves when it clears entry `k` of `dp`. */
  ghost function AfterUnlink(tab: seq<Node>, dp: int, k: int): (r: seq<Node>)
    requires 0 <= dp < |tab| && 0 <= k < |tab[dp].ents| && 0 <= tab[dp].ents[k].inum < |tab|
  {
    var ip := tab[dp].ents[k].inum;
    var n := if tab[ip].typ == Dir then 1 else 0;
    Bump(tab[dp := Node(tab[dp].typ, tab[dp].nlink - n, tab[dp].ents[k := Ent(0, [])])], ip, -1)
  }

  /** Nothing but the dots. */
  ghost predicate Empty(ents: seq<Ent>) {
    forall k :: 2 <= k < |ents| ==> ents[k].inum == 0
  }

  ghost predicate CanUnlink(tab: seq<Node>, dp: int, k: int) {
    && Inv(tab) && 0 < dp < |tab| && tab[dp].typ == Dir && 2 <= k < |tab[dp].ents|
    && var ip := tab[dp].ents[k].inum;
        0 < ip < |tab| && tab[ip].typ != Free
        && (tab[ip].typ == Dir ==> Empty(tab[ip].ents))
  }

  /** No linked directory has an empty directory as its parent. */
  lemma NoChildren(tab: seq<Node>, c: int, d: int)
    requires Shapes(tab) && Up(tab) && 0 < c < |tab| && tab[c].typ == Dir && Empty(tab[c].ents) && c != ROOT
    requires 0 <= d < |tab| && Linked(tab[d])
    ensures |tab[d].ents| >= 2 && tab[d].ents[1].inum != c
  {
    assert Shape(tab, d);
    if d != ROOT {
      var k :| NamedAt(tab, tab[d].ents[1].inum, k, d);
    }
  }

  /** Who names an empty directory: its parent, once. */
  lemma EmptyNamedAt(tab: seq<Node>, dp: int, k: int, d: int, l: int)
    requires CanUnlink(tab, dp, k) && Linked(tab[dp]) && tab[tab[dp].ents[k].inum].typ == Dir
    requires 0 <= d < |tab| && Linked(tab[d]) && 0 <= l < |tab[d].ents|
    ensures Names(tab[d].ents[l], tab[dp].ents[k].inum) <==> d == dp && l == k
  {
    hide Counted, Up;
    var ip := tab[dp].ents[k].inum;
    UnlinkShape(tab, dp, k);
    NoChildren(tab, ip, d);
    assert Shape(tab, d);
    if d == dp && l == k {
      assert tab[d].ents[0].name != tab[d].ents[k].name;
    }
  }

  lemma EmptyNamed(tab: seq<Node>, dp: int, k: int, d: int)
    requires CanUnlink(tab, dp, k) && Linked(tab[dp]) && tab[tab[dp].ents[k].inum].typ == Dir && 0 <= d < |tab|
    ensures Share(tab[d], tab[dp].ents[k].inum) == if d == dp then 1 else 0
  {
    hide CountIn, Inv, Names;
    var ip := tab[dp].ents[k].inum;
    if Linked(tab[d]) {
      forall l | 0 <= l < |tab[d].ents| ensures Names(tab[d].ents[l], ip) <==> d == dp && l == k {
        EmptyNamedAt(tab, dp, k, d, l);
      }
      if d == dp {
        CountInOne(tab[d].ents, k, ip);
      } else {
        CountInNone(tab[d].ents, ip);
      }
    }
  }

  lemma UnlinkShape(tab: seq<Node>, dp: int, k: int)
    requires CanUnlink(tab, dp, k)
    ensures Shape(tab, dp) && Counted(tab)
    ensures var ip := tab[dp].ents[k].inum; tab[ip].typ == Dir ==> Shape(tab, ip) && ip != ROOT && Empty(tab[ip].ents)
    ensures var ip := tab[dp].ents[k].inum;
            tab[ip].typ == Dir && Linked(tab[dp]) ==> Linked(tab[ip]) && tab[ip].ents[1].inum == dp && ip != dp
  {
  }

  /** An empty directory that is named has exactly that one link. */
  lemma EmptyOnce(tab: seq<Node>, dp: int, k: int)
    requires CanUnlink(tab, dp, k) && Linked(tab[dp]) && tab[tab[dp].ents[k].inum].typ == Dir
    ensures var ip := tab[dp].ents[k].inum; Count(tab, ip) == 1 && ip != ROOT && ip != dp
  {
    hide Inv, Shape, Share, Count;
    var ip := tab[dp].ents[k].inum;
    UnlinkShape(tab, dp, k);
    forall d | 0 <= d < |tab| ensures Share(tab[d], ip) == if d == dp then 1 else 0 {
      EmptyNamed(tab, dp, k, d);
    }
    var none := Node(Free, 0, []);
    NoShare(ip);
    CountSet(tab, dp, none, ip);
    CountNone(tab[dp := none], ip);
  }

  lemma NoShare(x: int)
    ensures Share(Node(Free, 0, []), x) == 0
  {
  }

  /** The parent of a directory has a link besides that directory's "..". */
  lemma ParentTwice(tab: seq<Node>, dp: int, k: int)
    requires CanUnlink(tab, dp, k) && Linked(tab[dp]) && tab[tab[dp].ents[k].inum].typ == Dir
    ensures Count(tab, dp) >= 2
  {
    hide CountIn, Count;
    var ip := tab[dp].ents[k].inum;
    EmptyOnce(tab, dp, k);
    assert Shape(tab, dp) && Shape(tab, ip) && Linked(tab[ip]) && tab[ip].ents[1].inum == dp;
    CountInSome(tab[ip].ents, 1, dp);
    if dp == ROOT {
      CountInSome(tab[dp].ents, 1, dp);
      SharesBelow(tab, ip, dp, dp);
    } else {
      var p := tab[dp].ents[1].inum;
      var l :| NamedAt(tab, p, l, dp);
      assert Shape(tab, p) && p != ip;
      GetIs(tab[p].ents, DOT, 0);
      CountInSome(tab[p].ents, l, dp);
      SharesBelow(tab, ip, p, dp);
    }
  }

  lemma EmptyShare(tab: seq<Node>, ip: int, dp: int, x: int)
    requires 0 <= ip < |tab| && Shape(tab, ip) && Empty(tab[ip].ents) && tab[ip].ents[1].inum == dp && x != 0
    ensures CountIn(tab[ip].ents, x) == if x == dp then 1 else 0
  {
    hide CountIn;
    if x == dp {
      CountInOne(tab[ip].ents, 1, x);
    } else {
      CountInNone(tab[ip].ents, x);
    }
  }

  lemma ClearedEntry(tab: seq<Node>, dp: int, k: int, x: int)
    requires 0 < dp < |tab| && Shape(tab, dp) && 2 <= k < |tab[dp].ents| && tab[dp].ents[k].inum != 0 && x != 0
    ensures CountIn(tab[dp].ents[k := Ent(0, [])], x) ==
              CountIn(tab[dp].ents, x) - if tab[dp].ents[k].inum == x then 1 else 0
  {
    CountInSet(tab[dp].ents, k, Ent(0, []), x);
    assert tab[dp].ents[0].name != tab[dp].ents[k].name;
  }

  /** Unlinking a file. */
  lemma UnlinkFileCount(tab: seq<Node>, dp: int, k: int, x: int)
    requires CanUnlink(tab, dp, k) && tab[tab[dp].ents[k].inum].typ.Other? && x != 0
    ensures Count(AfterUnlink(tab, dp, k), x) ==
              Count(tab, x) - if x == tab[dp].ents[k].inum && Linked(tab[dp]) then 1 else 0
  {
    hide CountIn, Count, Inv, Shape;
    UnlinkShape(tab, dp, k);
    var ip := tab[dp].ents[k].inum;
    var t := tab[dp := Node(tab[dp].typ, tab[dp].nlink - 0, tab[dp].ents[k := Ent(0, [])])];
    CountSet(tab, dp, t[dp], x);
    CountSet(t, ip, t[ip].(nlink := t[ip].nlink - 1), x);
    ClearedEntry(tab, dp, k, x);
  }

  /** Unlinking an empty directory. */
  lemma UnlinkDirCount(tab: seq<Node>, dp: int, k: int, x: int)
    requires CanUnlink(tab, dp, k) && Linked(tab[dp]) && tab[tab[dp].ents[k].inum].typ == Dir && x != 0
    ensures var ip := tab[dp].ents[k].inum;
            && Count(AfterUnlink(tab, dp, k), x)
                == Count(tab, x) - (if x == ip then 1 else 0) - (if x == dp then 1 else 0)
            && Linked(tab[ip]) && tab[ip].nlink == 1 && tab[dp].nlink >= 2 && ip != dp && ip != ROOT
  {
    hide CountIn, Count, Inv, Shape, Empty;
    var ip := tab[dp].ents[k].inum;
    UnlinkShape(tab, dp, k);
    EmptyOnce(tab, dp, k);
    ParentTwice(tab, dp, k);
    assert tab[ip].nlink == 1 && tab[dp].nlink >= 2;
    var t := tab[dp := Node(tab[dp].typ, tab[dp].nlink - 1, tab[dp].ents[k := Ent(0, [])])];
    CountSet(tab, dp, t[dp], x);
    CountSet(t, ip, t[ip].(nlink := t[ip].nlink - 1), x);
    ClearedEntry(tab, dp, k, x);
    EmptyShare(tab, ip, dp, x);
  }

  /** What an unlink does to the entries and to who is linked. */
  ghost predicate OneGone(tab: seq<Node>, r: seq<Node>, dp: int, k: int, ip: int) {
    && |r| == |tab| && 0 <= dp < |tab| && 2 <= k < |tab[dp].ents| && |r[dp].ents| == |tab[dp].ents|
    && r[dp].ents[k].inum == 0 && tab[dp].ents[k].inum == ip
    && (forall d :: 0 <= d < |tab| && d != dp ==> r[d].ents == tab[d].ents)
    && (forall l :: 0 <= l < |r[dp].ents| && l != k ==> r[dp].ents[l] == tab[dp].ents[l])
    && (forall d :: 0 <= d < |tab| ==> r[d].typ == tab[d].typ)
    && (forall d :: 0 <= d < |tab| ==> (Linked(r[d]) <==> Linked(tab[d]) && d != ip))
  }

  lemma UnlinkGone(tab: seq<Node>, dp: int, k: int)
    requires CanUnlink(tab, dp, k) && Linked(tab[dp])
    ensures OneGone(tab, AfterUnlink(tab, dp, k), dp, k, tab[dp].ents[k].inum)
  {
    hide Inv, Shape;
    UnlinkShape(tab, dp, k);
    if tab[tab[dp].ents[k].inum].typ == Dir {
      UnlinkDirCount(tab, dp, k, dp);
    }
  }

  lemma GoneShapes(tab: seq<Node>, r: seq<Node>, dp: int, k: int, ip: int)
    requires Shapes(tab) && OneGone(tab, r, dp, k, ip) && ip != ROOT && NoDup(r[dp].ents)
    requires forall x :: 0 <= x < |tab| && tab[x].typ == Free ==> r[x].nlink == tab[x].nlink
    ensures Shapes(r)
  {
    forall d | 0 <= d < |r| && r[d].typ == Dir ensures Shape(r, d) {
      assert Shape(tab, d);
    }
  }

  lemma UnlinkShapes(tab: seq<Node>, dp: int, k: int)
    requires CanUnlink(tab, dp, k) && Linked(tab[dp])
    ensures Shapes(AfterUnlink(tab, dp, k))
  {
    hide Shapes, Down, Up, Once, Counted, OneGone, NoDup;
    ShapeOf(tab, dp);
    UnlinkGone(tab, dp, k);
    ClearGets(tab[dp].ents, k, DOT);
    GoneShapes(tab, AfterUnlink(tab, dp, k), dp, k, tab[dp].ents[k].inum);
  }

  lemma GoneDown(tab: seq<Node>, r: seq<Node>, dp: int, k: int, ip: int)
    requires Shapes(tab) && Down(tab) && Once(tab) && OneGone(tab, r, dp, k, ip) && Linked(tab[dp]) && 0 < ip < |tab|
    ensures Down(r)
  {
    forall d, l | 0 <= d < |r| && Linked(r[d]) && 2 <= l < |r[d].ents|
      ensures var c := r[d].ents[l].inum;
              0 < c < |r| && r[c].typ == Dir ==> Linked(r[c]) && |r[c].ents| >= 2 && r[c].ents[1].inum == d
    {
      if !(d == dp && l == k) {
        var c := tab[d].ents[l].inum;
        assert r[d].ents[l] == tab[d].ents[l];
        if 0 < c < |tab| && tab[c].typ == Dir {
          assert Linked(tab[c]) && tab[c].ents[1].inum == d;
          assert c != ip;
          assert r[c].ents[1] == tab[c].ents[1];
        }
      }
    }
  }

  lemma GoneUp(tab: seq<Node>, r: seq<Node>, dp: int, k: int, ip: int)
    requires Shapes(tab) && Up(tab) && OneGone(tab, r, dp, k, ip) && 0 < ip < |tab|
             && (tab[ip].typ == Dir ==> Empty(tab[ip].ents))
    ensures Up(r)
  {
    hide Up;
    forall c | 0 <= c < |r| && Linked(r[c]) && c != ROOT && |r[c].ents| >= 2
      ensures exists l :: NamedAt(r, r[c].ents[1].inum, l, c)
    {
      assert r[c].ents[1] == tab[c].ents[1];
      GoneNamed(tab, r, dp, k, ip, c);
      UpCarry(tab, r, c);
    }
    UpIs(r);
  }

  lemma GoneNamed(tab: seq<Node>, r: seq<Node>, dp: int, k: int, ip: int, c: int)
    requires OneGone(tab, r, dp, k, ip) && 0 < ip < |tab| && (tab[ip].typ == Dir ==> Empty(tab[ip].ents)) && c != ip
             && c != 0
    ensures forall p, l :: NamedAt(tab, p, l, c) ==> NamedAt(r, p, l, c)
  {
    forall p, l | NamedAt(tab, p, l, c) ensures NamedAt(r, p, l, c) {
      assert p != ip && !(p == dp && l == k);
      assert r[p].ents[l] == tab[p].ents[l];
    }
  }

  lemma GoneOnce(tab: seq<Node>, r: seq<Node>, dp: int, k: int, ip: int)
    requires Once(tab) && OneGone(tab, r, dp, k, ip)
    ensures Once(r)
  {
    forall d, a, b | 0 <= d < |r| && Linked(r[d]) && 2 <= a < b < |r[d].ents| && r[d].ents[a].inum == r[d].ents[b].inum
      ensures var c := r[d].ents[a].inum; !(0 < c < |r| && r[c].typ == Dir)
    {
      if r[d].ents[a].inum != 0 {
        assert r[d].ents[a] == tab[d].ents[a] && r[d].ents[b] == tab[d].ents[b];
      }
    }
  }

  lemma UnlinkCounted(tab: seq<Node>, dp: int, k: int)
    requires CanUnlink(tab, dp, k)
    ensures Counted(AfterUnlink(tab, dp, k)) <==> Linked(tab[dp])
  {
    hide Inv, Shape, Count, Empty;
    UnlinkShape(tab, dp, k);
    var r, ip := AfterUnlink(tab, dp, k), tab[dp].ents[k].inum;
    if tab[ip].typ.Other? {
      forall x | 0 < x < |tab| ensures Count(r, x) == Count(tab, x) - if x == ip && Linked(tab[dp]) then 1 else 0 {
        UnlinkFileCount(tab, dp, k, x);
      }
    } else if Linked(tab[dp]) {
      forall x | 0 < x < |tab| ensures r[x].nlink == Count(r, x) {
        UnlinkDirCount(tab, dp, k, x);
      }
    } else {
      CountNonNegative(tab, dp);
      assert r[dp].nlink < 0;
      assert Count(r, dp) >= 0;
    }
  }

  /** An unlink keeps every count right exactly when the directory it is made in is linked. */
  lemma UnlinkKeeps(tab: seq<Node>, dp: int, k: int)
    requires CanUnlink(tab, dp, k)
    ensures Inv(AfterUnlink(tab, dp, k)) <==> Linked(tab[dp])
  {
    hide Shapes, Shape, Down, Up, Once, Counted, Count, OneGone;
    UnlinkCounted(tab, dp, k);
    if Linked(tab[dp]) {
      var r, ip := AfterUnlink(tab, dp, k), tab[dp].ents[k].inum;
      UnlinkShapes(tab, dp, k);
      UnlinkGone(tab, dp, k);
      GoneDown(tab, r, dp, k, ip);
      GoneUp(tab, r, dp, k, ip);
      GoneOnce(tab, r, dp, k, ip);
    }
  }

  // ---- the end of an inode ----------------------------------------------------------------------------------

  /** iput of the last reference to an unlinked inode. */
  lemma PutKeeps(tab: seq<Node>, x: int)
    requires Inv(tab) && 0 < x < |tab| && tab[x].nlink == 0
    ensures Inv(tab[x := Node(Free, 0, [])])
  {
    var r := tab[x := Node(Free, 0, [])];
    forall y | 0 < y < |tab| ensures r[y].nlink == Count(r, y) {
      CountSet(tab, x, r[x], y);
    }
    hide Count;
    PutTree(tab, x);
  }

  lemma PutTree(tab: seq<Node>, x: int)
    requires Shapes(tab) && Down(tab) && Up(tab) && Once(tab) && 0 < x < |tab| && tab[x].nlink == 0
    ensures var r := tab[x := Node(Free, 0, [])]; Shapes(r) && Down(r) && Up(r) && Once(r)
  {
    PutUp(tab, x);
    PutShapes(tab, x);
    PutDown(tab, x);
    PutOnce(tab, x);
  }

  lemma PutShapes(tab: seq<Node>, x: int)
    requires Shapes(tab) && 0 < x < |tab| && tab[x].nlink == 0
    ensures Shapes(tab[x := Node(Free, 0, [])])
  {
    var r := tab[x := Node(Free, 0, [])];
    forall d | 0 <= d < |r| && r[d].typ == Dir ensures Shape(r, d) {
      assert Shape(tab, d);
    }
  }

  lemma PutDown(tab: seq<Node>, x: int)
    requires Shapes(tab) && Down(tab) && 0 < x < |tab| && tab[x].nlink == 0
    ensures Down(tab[x := Node(Free, 0, [])])
  {
    var r := tab[x := Node(Free, 0, [])];
    forall d, l | 0 <= d < |r| && Linked(r[d]) && 2 <= l < |r[d].ents|
      ensures var c := r[d].ents[l].inum;
              0 < c < |r| && r[c].typ == Dir ==> Linked(r[c]) && |r[c].ents| >= 2 && r[c].ents[1].inum == d
    {
      assert r[d] == tab[d];
    }
  }

  lemma PutOnce(tab: seq<Node>, x: int)
    requires Once(tab) && 0 < x < |tab|
    ensures Once(tab[x := Node(Free, 0, [])])
  {
    var r := tab[x := Node(Free, 0, [])];
    forall d, a, b | 0 <= d < |r| && Linked(r[d]) && 2 <= a < b < |r[d].ents| && r[d].ents[a].inum == r[d].ents[b].inum
      ensures var c := r[d].ents[a].inum; !(0 < c < |r| && r[c].typ == Dir)
    {
      assert r[d] == tab[d];
    }
  }

  lemma PutUp(tab: seq<Node>, x: int)
    requires Shapes(tab) && Up(tab) && 0 < x < |tab| && tab[x].nlink == 0
    ensures Up(tab[x := Node(Free, 0, [])])
  {
    var r := tab[x := Node(Free, 0, [])];
    hide Up;
    forall c | 0 <= c < |r| && Linked(r[c]) && c != ROOT && |r[c].ents| >= 2
      ensures exists l :: NamedAt(r, r[c].ents[1].inum, l, c)
    {
      UpCarry(tab, r, c);
    }
    UpIs(r);
  }

  // ---- removed directories ----------------------------------------------------------------------------------

  /** A directory without links holds nothing but the dots. */
  ghost predicate RemovedEmpty(tab: seq<Node>) {
    forall d :: 0 <= d < |tab| && tab[d].typ == Dir && tab[d].nlink == 0 ==> Empty(tab[d].ents)
  }

  /** So only linked directories name anything else. */
  lemma LinkedHolder(tab: seq<Node>, dp: int, name: Name)
    requires Inv(tab) && RemovedEmpty(tab) && 0 < dp < |tab| && tab[dp].typ == Dir
    requires Get(tab[dp].ents, Trunc(name)) != 0 && Trunc(name) != DOT && Trunc(name) != DOTDOT
    ensures Linked(tab[dp])
  {
    hide Count, CountIn, Down, Up, Once, Shape;
    EntryRange(tab, dp, name);
    assert tab[dp].nlink == Count(tab, dp);
  }

  /** What such a name names: an inode in use, other than the directory itself. */
  lemma NamedOther(tab: seq<Node>, dp: int, name: Name)
    requires Inv(tab) && RemovedEmpty(tab) && 0 < dp < |tab| && tab[dp].typ == Dir
    requires Get(tab[dp].ents, Trunc(name)) != 0 && Trunc(name) != DOT && Trunc(name) != DOTDOT
    ensures var x, k := Get(tab[dp].ents, Trunc(name)), Find(tab[dp].ents, Trunc(name));
            && Linked(tab[dp]) && 2 <= k < |tab[dp].ents| && tab[dp].ents[k].inum == x
            && 0 < x < |tab| && x != dp && tab[x].nlink >= 1 && tab[x].typ != Free
            && ((tab[x].typ == Dir ==> Empty(tab[x].ents)) ==> CanUnlink(tab, dp, k))
  {
    hide Count, CountIn, Up, Once;
    LinkedHolder(tab, dp, name);
    EntryRange(tab, dp, name);
    assert Shape(tab, dp);
  }

  lemma LinkRemoved(tab: seq<Node>, ip: int, dp: int, name: Name)
    requires RemovedEmpty(tab) && 0 <= ip < |tab| && 0 <= dp < |tab| && tab[ip].typ.Other? && Linked(tab[dp])
    ensures RemovedEmpty(AfterLink(tab, ip, dp, name))
  {
    hide Empty, Add;
  }

  lemma CreateRemoved(tab: seq<Node>, x: int, dp: int, name: Name, dev: bool)
    requires RemovedEmpty(tab) && 0 <= x < |tab| && 0 <= dp < |tab| && x != dp && Linked(tab[dp])
    ensures RemovedEmpty(AfterCreate(tab, x, dp, name, dev)) && RemovedEmpty(AfterMkdir(tab, x, dp, name))
  {
    hide Empty, Add;
  }

  lemma UnlinkRemoved(tab: seq<Node>, dp: int, k: int)
    requires CanUnlink(tab, dp, k) && Linked(tab[dp]) && RemovedEmpty(tab)
    ensures RemovedEmpty(AfterUnlink(tab, dp, k))
  {
    hide Count, Down, Up, Once, Shape;
    if tab[tab[dp].ents[k].inum].typ == Dir {
      EmptyOnce(tab, dp, k);
      ParentTwice(tab, dp, k);
    }
  }

  // ---- what names name -------------------------------------------------------------------------------------

  lemma NoDups(tab: seq<Node>, d: int)
    requires Inv(tab) && 0 <= d < |tab| && tab[d].typ == Dir
    ensures NoDup(tab[d].ents)
  {
    assert Shape(tab, d);
  }

  /** Where a name that is not a dot is found, and what it can name. */
  lemma EntryRange(tab: seq<Node>, dp: int, name: Name)
    requires Inv(tab) && 0 < dp < |tab| && tab[dp].typ == Dir
    ensures var x, k := Get(tab[dp].ents, Trunc(name)), Find(tab[dp].ents, Trunc(name));
            && 0 <= x < |tab|
            && (x != 0 ==> k < |tab[dp].ents| && tab[dp].ents[k].inum == x)
            && (x != 0 && Trunc(name) != DOT && Trunc(name) != DOTDOT ==> k >= 2 && x != ROOT)
            && (x != 0 && Trunc(name) != DOT && Trunc(name) != DOTDOT && Linked(tab[dp]) ==>
                tab[x].nlink >= 1
                && tab[x].typ != Free)
  {
    hide Count, CountIn, Down, Up, Once;
    assert Shape(tab, dp);
    var x, k := Get(tab[dp].ents, Trunc(name)), Find(tab[dp].ents, Trunc(name));
    if x != 0 && Trunc(name) != DOT && Linked(tab[dp]) {
      CountInSome(tab[dp].ents, k, x);
      ShareBelow(tab, dp, x);
    }
  }

  /** Whatever a linked directory names, the dots included, is in use and has a link. */
  lemma EntryInUse(tab: seq<Node>, dp: int, name: Name)
    requires Inv(tab) && 0 < dp < |tab| && Linked(tab[dp]) && Get(tab[dp].ents, Trunc(name)) != 0
    ensures var x := Get(tab[dp].ents, Trunc(name)); 0 < x < |tab| && tab[x].typ != Free && tab[x].nlink >= 1
  {
    hide Count, CountIn, Down, Once;
    assert Shape(tab, dp);
    EntryRange(tab, dp, name);
    DotsTaken(tab, dp, name);
    if Trunc(name) == DOTDOT && dp != ROOT {
      var l :| NamedAt(tab, tab[dp].ents[1].inum, l, dp);
    }
  }

  lemma DotAdded(x: int, dp: int)
    ensures NoDup([]) && Get([], DOT) == 0 && Trunc(DOT) == DOT && Trunc(DOTDOT) == DOTDOT
    ensures Add([], DOT, x) == [Ent(x, DOT)] && NoDup([Ent(x, DOT)]) && Get([Ent(x, DOT)], DOTDOT) == 0
    ensures x != 0 ==> Add([Ent(x, DOT)], DOTDOT, dp) == [Ent(x, DOT), Ent(dp, DOTDOT)]
  {
    var ents := [Ent(x, DOT)];
    assert ents[1..] == [];
  }

  // ---- a run that breaks the counts -------------------------------------------------------------------------

  /** Four inodes, of which only the root is in use. */
  function NewTable(): (tab: seq<Node>) {
    [Node(Free, 0, []), Node(Dir, 1, [Ent(ROOT, DOT), Ent(ROOT, DOTDOT)]), Node(Free, 0, []), Node(Free, 0, [])]
  }

  lemma DotsOnly(d: int, p: int, name: Name)
    requires name != DOT && name != DOTDOT
    ensures Get([Ent(d, DOT), Ent(p, DOTDOT)], name) == 0
  {
  }

  /** What mkdir in the root leaves. */
  lemma FirstMade(name: Name)
    ensures AfterMkdir(NewTable(), 2, ROOT, name) ==
            [Node(Free, 0, []), Node(Dir, 2, [Ent(ROOT, DOT), Ent(ROOT, DOTDOT), Ent(2, name)]),
             Node(Dir, 1, [Ent(2, DOT), Ent(ROOT, DOTDOT)]), Node(Free, 0, [])]
  {
    var ents := [Ent(ROOT, DOT), Ent(ROOT, DOTDOT)];
    assert FirstFree(ents) == 2 && Add(ents, name, 2) == ents + [Ent(2, name)];
    assert ents + [Ent(2, name)] == [Ent(ROOT, DOT), Ent(ROOT, DOTDOT), Ent(2, name)];
  }

  /** A directory is made in the root and removed again while somebody has it open; a file created in it has one link,
      and no linked directory names it. */
  lemma RemovedParent(d: Name, f: Name)
    requires d != DOT && d != DOTDOT && f != DOT && f != DOTDOT
    ensures var made := AfterMkdir(NewTable(), 2, ROOT, d);
            var removed := AfterUnlink(made, ROOT, 2);
            Inv(made) && Inv(removed) && CanCreate(removed, 3, 2, f) && !Inv(AfterCreate(removed, 3, 2, f, false))
  {
    hide Inv, Get, AfterMkdir, AfterCreate;
    RootOnly(NewTable());
    DotsOnly(ROOT, ROOT, d);
    MkdirKeeps(NewTable(), 2, ROOT, d);
    FirstMade(d);
    var made := AfterMkdir(NewTable(), 2, ROOT, d);
    UnlinkKeeps(made, ROOT, 2);
    DotsOnly(2, ROOT, f);
    CreateKeeps(AfterUnlink(made, ROOT, 2), 3, 2, f, false);
  }
}
