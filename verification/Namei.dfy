/** The walk along a path (namex), over the directories on disk and the inode cache. */
module Namei {
  import opened Bytes
  import opened Layout
  import opened FileSystem
  import opened Dirs
  import opened Paths
  import opened DirFiles
  import opened DiskInodes
  import opened DiskLinks
  import opened DiskNodes
  import opened Creation
  import opened Icache
  import BufferCache
  import Links
  import L = Log

  /** A panic is ilock's, on an inode that is not in use. */
  datatype Found = Nothing | Panics | Found(inum: int, name: Name)

  /** Looking up one name after the other. */
  ghost function Walk(t: seq<Links.Node>, x: int, names: seq<Name>): (r: Found)
    decreases names
  {
    if names == [] then Found(x, [])
    else if !(0 <= x < |t|) || t[x].typ == Links.Free then Panics
    else if t[x].typ != Links.Dir || Get(t[x].ents, names[0]) == 0 then Nothing
    else Walk(t, Get(t[x].ents, names[0]), names[1..])
  }

  /** The directory that holds the last name, and that name. */
  ghost function WalkParent(t: seq<Links.Node>, x: int, names: seq<Name>): (r: Found) {
    if names == [] then Nothing
    else
      var n := |names| - 1;
      var d := Walk(t, x, names[..n]);
      if !d.Found? then d
      else if !(0 <= d.inum < |t|) || t[d.inum].typ == Links.Free then Panics
      else if t[d.inum].typ != Links.Dir then Nothing
      else Found(d.inum, names[n])
  }

  /** The same, from the front. */
  lemma WalkParentNext(t: seq<Links.Node>, x: int, names: seq<Name>)
    requires names != []
    ensures WalkParent(t, x, names) ==
              if !(0 <= x < |t|) || t[x].typ == Links.Free then Panics
              else if t[x].typ != Links.Dir then Nothing
              else if |names| == 1 then Found(x, names[0])
              else if Get(t[x].ents, names[0]) == 0 then Nothing
              else WalkParent(t, Get(t[x].ents, names[0]), names[1..])
  {
    var n := |names| - 1;
    if n > 0 {
      assert names[..n][1..] == names[1..][..n - 1];
    }
  }

  /** A walk that starts at an inode with links never panics, and every inode it comes to has links. */
  lemma {:induction false} WalkLinked(t: seq<Links.Node>, x: int, names: seq<Name>)
    requires Links.Inv(t) && 0 < x < |t| && t[x].typ != Links.Free && t[x].nlink >= 1
    requires forall k :: 0 <= k < |names| ==> Trunc(names[k]) == names[k]
    ensures var r := Walk(t, x, names);
            !r.Panics? && (r.Found? ==> 0 < r.inum < |t| && t[r.inum].typ != Links.Free && t[r.inum].nlink >= 1)
    decreases names
  {
    hide Links.Inv, Get;
    if names != [] && t[x].typ == Links.Dir && Get(t[x].ents, names[0]) != 0 {
      Links.EntryInUse(t, x, names[0]);
      WalkLinked(t, Get(t[x].ents, names[0]), names[1..]);
    }
  }

  ghost function Goal(t: seq<Links.Node>, x: int, names: seq<Name>, parent: bool): (r: Found) {
    if parent then WalkParent(t, x, names) else Walk(t, x, names)
  }

  lemma GoalNext(t: seq<Links.Node>, x: int, names: seq<Name>, parent: bool)
    requires names != []
    ensures Goal(t, x, names, parent) ==
              if !(0 <= x < |t|) || t[x].typ == Links.Free then Panics
              else if t[x].typ != Links.Dir then Nothing
              else if parent && |names| == 1 then Found(x, names[0])
              else if Get(t[x].ents, names[0]) == 0 then Nothing
              else Goal(t, Get(t[x].ents, names[0]), names[1..], parent)
  {
    WalkParentNext(t, x, names);
  }

  lemma GoalNone(t: seq<Links.Node>, x: int, parent: bool)
    ensures Goal(t, x, [], parent) == if parent then Nothing else Found(x, [])
  {
  }

  lemma RestEmpty(path: seq<byte>)
    requires SkipElem(path).Elem?
    ensures SkipElem(path).rest == [] <==> Elems(SkipElem(path).rest) == []
  {
    var rest := SkipElem(path).rest;
    assert DropSlashes(rest) == rest;
  }

  lemma ElemsUnfold(p: seq<byte>)
    ensures var e := SkipElem(p); Elems(p) == if e.NoElem? then [] else [e.name] + Elems(e.rest)
    ensures SkipElem(p).Elem? ==> Trunc(SkipElem(p).name) == SkipElem(p).name
  {
  }

  lemma {:induction false} DropNoNul(p: seq<byte>)
    requires NoNul(p)
    ensures NoNul(DropSlashes(p))
  {
    if p != [] && p[0] == SLASH {
      DropNoNul(p[1..]);
    }
  }

  /** The elements of a C string are C strings. */
  lemma ElemNoNul(p: seq<byte>)
    requires NoNul(p) && SkipElem(p).Elem?
    ensures NoNul(SkipElem(p).name) && NoNul(SkipElem(p).rest)
  {
    DropNoNul(p);
    var s := DropSlashes(p);
    DropNoNul(s[WordLength(s)..]);
  }

  datatype Outcome = Missing | Panic | At(i: nat, name: Name)

  /** The spec of the walk and what namex returns. */
  ghost predicate Answers(out: Outcome, goal: Found, ss0: seq<Slot>, ss: seq<Slot>, parent: bool) {
    match goal
    case Panics => out.Panic?
    case Nothing => out.Missing? && (forall x :: Refs(ss, x) == Refs(ss0, x)) && Live(ss) == Live(ss0)
    case Found(inum, name) =>
      && out.At? && out.i < |ss| && ss[out.i].ref > 0 && ss[out.i].key == Key(ROOTDEV, inum)
      && Holding(ss0, ss, Key(ROOTDEV, inum)) && (parent ==> out.name == name)
  }

  /** The reference that the walk holds is given back. */
  method LetGo(c: Cache, ip: nat, ghost ss0: seq<Slot>)
    requires c.Valid() && ip < NINODE && c.ss[ip].ref > 0 && Holding(ss0, c.ss, c.ss[ip].key)
    modifies c
    ensures c.Valid() && (forall x :: Refs(c.ss, x) == Refs(ss0, x)) && Live(c.ss) == Live(ss0)
  {
    hide Refs, Live, Unique;
    CachedRefs(c.ss, ip);
    c.Iput(ip);
  }

  /** The walk starts at the root or at the current directory. */
  method Origin(c: Cache, path: seq<byte>, cwd: nat) returns (ip: nat)
    requires c.Valid() && cwd < NINODE && c.ss[cwd].ref > 0 && Live(c.ss) + 2 <= NINODE
    modifies c
    ensures c.Valid() && ip < NINODE && c.ss[ip].ref > 0 && Holding(old(c.ss), c.ss, c.ss[ip].key)
    ensures c.ss[ip].key == if path != [] && path[0] == SLASH then Key(ROOTDEV, ROOTINO) else old(c.ss)[cwd].key
  {
    hide Refs, Live, Unique;
    if path != [] && path[0] == SLASH {
      ip := c.Iget(Key(ROOTDEV, ROOTINO));
    } else {
      CachedRefs(c.ss, cwd);
      c.Idup(cwd);
      ip := cwd;
    }
  }

  lemma RootThere(fs: FileSystem)
    requires Right(fs.log.View(), fs.fs.tab)
    ensures ROOTINO < |fs.fs.tab|
  {
    hide Links.Down, Links.Up, Links.Once, Links.Counted;
  }

  /** One inode of the walk: its type and, unless the walk stops here, what it maps the name to. */
  method LookAt(fs: FileSystem, x: nat, name: Name, stop: bool) returns (typ: ushort, inum: int)
    requires Calm(fs) && Right(fs.log.View(), fs.fs.tab) && 0 < x < |fs.fs.tab| && NoNul(name)
    modifies fs.log, fs.log.cache, fs`fs
    ensures Calm(fs) && Still(fs) && Table(fs)[x].typ == TypOf(typ)
    ensures typ == T_DIR && !stop ==> inum == Get(Table(fs)[x].ents, Trunc(name)) && 0 <= inum < |fs.fs.tab|
  {
    hide Get, Find, Calm, L.Log.View, BufferCache.Cache.Pinned, Whole, NodeOf, NoNul, Links.Inv, Links.RemovedEmpty,
         FreeBare;
    var d := Ilock(fs, x);
    NodeIs(fs, d);
    typ, inum := d.typ, 0;
    if typ == T_DIR && !stop {
      Links.EntryRange(Table(fs), x, name);
      var found, _ := FindName(fs, d, name);
      inum := found;
    }
  }

  /** namex: the fold of lookup over the elements of the path, stopping one early for the parent, with every lookup
      read from the directory's bytes. On success the inode found has one more reference; on failure no reference has
      changed. Two spare slots are enough. */
  method Namex(c: Cache, fs: FileSystem, path: seq<byte>, parent: bool, cwd: nat) returns (out: Outcome)
    requires c.Valid() && cwd < NINODE && c.ss[cwd].ref > 0 && Live(c.ss) + 2 <= NINODE && NoNul(path)
    requires Calm(fs) && Right(fs.log.View(), fs.fs.tab)
    requires c.ss[cwd].key.dev == ROOTDEV && 0 < c.ss[cwd].key.inum < |fs.fs.tab|
    modifies c, fs.log, fs.log.cache, fs`fs
    ensures c.Valid() && Calm(fs) && Still(fs) && Right(fs.log.View(), fs.fs.tab)
    ensures var start := if path != [] && path[0] == SLASH then ROOTINO else old(c.ss)[cwd].key.inum;
            Answers(out, Goal(Table(fs), start, Elems(path), parent), old(c.ss), c.ss, parent)
  {
    hide Refs, Live, Get, Walk, WalkParent, Unique, SkipElem, Calm, L.Log.View, BufferCache.Cache.Pinned, Whole, NoNul,
         Links.Inv, Links.RemovedEmpty, FreeBare, Holding, Elems;
    var ip: nat := Origin(c, path, cwd);
    RootThere(fs);
    ghost var t := Table(fs);
    ghost var goal := Goal(t, c.ss[ip].key.inum, Elems(path), parent);
    var p := path;
    var name := [];
    while true
      invariant c.Valid() && ip < NINODE && c.ss[ip].ref > 0 && NoNul(p)
      invariant c.ss[ip].key.dev == ROOTDEV && 0 < c.ss[ip].key.inum < |t|
      invariant Holding(old(c.ss), c.ss, c.ss[ip].key) && Goal(t, c.ss[ip].key.inum, Elems(p), parent) == goal
      invariant Calm(fs) && Still(fs)
      decreases |p|
    {
      var e := Skipelem(p);
      ElemsUnfold(p);
      if e.NoElem? {
        break;
      }
      ElemNoNul(p);
      RestEmpty(p);
      name := e.name;
      GoalNext(t, c.ss[ip].key.inum, Elems(p), parent);
      p := e.rest;
      var typ, inum := LookAt(fs, c.ss[ip].key.inum, name, parent && p == []);
      if typ == 0 {
        return Panic;
      }
      if typ != T_DIR {
        LetGo(c, ip, old(c.ss));
        return Missing;
      }
      if parent && p == [] {
        return At(ip, name);
      }
      if inum == 0 {
        LetGo(c, ip, old(c.ss));
        return Missing;
      }
      ip := Step(c, ip, Key(ROOTDEV, inum), old(c.ss));
    }
    GoalNone(t, c.ss[ip].key.inum, parent);
    if parent {
      LetGo(c, ip, old(c.ss));
      return Missing;
    }
    return At(ip, name);
  }

  // ---- what the other calls mean for a walk -----------------------------------------------------------------

  /** Where one name leads from a directory. */
  ghost function Lookup(t: seq<Links.Node>, d: nat, name: Name): (x: int)
    requires d < |t|
  {
    if t[d].typ == Links.Dir then Get(t[d].ents, name) else 0
  }

  /** After a link the name leads to the inode, and every other name leads where it did. */
  lemma LinkedName(t: seq<Links.Node>, x: nat, dp: nat, name: Name, d: nat, m: Name)
    requires Links.CanLink(t, x, dp, name) && d < |t|
    ensures Lookup(Links.AfterLink(t, x, dp, name), d, m) == if d == dp && m == name then x else Lookup(t, d, m)
  {
    hide Links.Inv, Get, Add;
    Links.NoDups(t, dp);
    AddGets(t[dp].ents, name, x, m);
  }

  ghost function DotLeads(x: nat, dp: nat, m: Name): (y: int) {
    if m == Links.DOT then x else if m == Links.DOTDOT then dp else 0
  }

  /** The same for create; a new directory also has its dots. */
  lemma CreatedName(t: seq<Links.Node>, x: nat, dp: nat, name: Name, typ: ushort, d: nat, m: Name)
    requires Links.CanCreate(t, x, dp, name) && d < |t| && typ != 0
    ensures Lookup(AfterNew(t, x, dp, name, typ), d, m) ==
              if d == dp && m == name then x
              else if d == x then (if typ == T_DIR then DotLeads(x, dp, m) else 0)
              else Lookup(t, d, m)
  {
    hide Links.Inv, Add, Get;
    Links.NoDups(t, dp);
    AddGets(t[dp].ents, name, x, m);
    DotsLead(x, dp, m);
  }

  lemma DotsLead(x: nat, dp: nat, m: Name)
    requires x != 0 && dp != 0
    ensures Get([Ent(x, Links.DOT), Ent(dp, Links.DOTDOT)], m) == DotLeads(x, dp, m)
  {
    var dots := [Ent(x, Links.DOT), Ent(dp, Links.DOTDOT)];
    if m == Links.DOT {
      GetIs(dots, m, 0);
    } else if m == Links.DOTDOT {
      GetIs(dots, m, 1);
    } else {
      Links.DotsOnly(x, dp, m);
    }
  }

  /** After an unlink the name leads nowhere, and every other name leads where it did. */
  lemma UnlinkedName(t: seq<Links.Node>, dp: nat, k: nat, d: nat, m: Name)
    requires Links.CanUnlink(t, dp, k) && d < |t|
    ensures Lookup(Links.AfterUnlink(t, dp, k), d, m) ==
              if d == dp && m == t[dp].ents[k].name then 0 else Lookup(t, d, m)
  {
    hide Links.Inv, Get;
    Links.NoDups(t, dp);
    ClearGets(t[dp].ents, k, m);
  }
}
