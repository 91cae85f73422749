/** create (sysfile.c) on the disk. */
module Creation {
  import opened BufferCache
  import opened Layout
  import opened Recovery
  import opened FsImage
  import opened FileBytes
  import opened FileSystem
  import opened Dirs
  import opened DirFiles
  import opened DiskInodes
  import opened DiskLinks
  import opened DiskNodes
  import Links
  import L = Log

  // ---- what the transaction has logged ----------------------------------------------------------------------

  /** What the transaction has logged: the bitmap block, the inode blocks in `base`, and at most `n` other sectors. */
  ghost predicate Logs(fs: FileSystem, base: set<Addr>, n: nat)
    reads fs, fs.log, fs.log.cache
  {
    fs.Bitmaps() <= base && |base| <= 3 && Within(fs.log.cache.Pinned(), base, n)
  }

  lemma LogsRoom(fs: FileSystem, dp: Inode, base: set<Addr>, n: nat)
    requires Logs(fs, base, n) && InodeBlock(fs, dp) in base && n <= 3
    ensures RoomFor(fs, dp)
  {
    hide Cache.Pinned, FileSystem.Bitmaps, InodeBlock;
    ghost var p := fs.log.cache.Pinned();
    UnionSize(base, p - base);
    SubsetSize(p + fs.Bitmaps() + {InodeBlock(fs, dp)}, base + (p - base));
  }

  lemma LogsMore(base: set<Addr>, p0: set<Addr>, more: set<Addr>, p: set<Addr>, n: nat)
    requires Within(p0, base, n) && Within(p, p0 + more, 1)
    ensures Within(p, base + more, n + 1)
  {
    UnionSize(p0 - base, p - (p0 + more));
    SubsetSize(p - (base + more), (p0 - base) + (p - (p0 + more)));
  }

  lemma LogsLoad(p: set<Addr>, base: set<Addr>, a: Addr)
    requires Within(p, base, 0) && |base| <= 3 && a in base
    ensures |p + {a}| <= L.MAXLOAD
  {
    UnionSize(base, p - base);
    SubsetSize(p + {a}, base + (p - base));
  }

  lemma WithinSize(p: set<Addr>, base: set<Addr>, n: nat)
    requires Within(p, base, n)
    ensures |p| <= |base| + n
  {
    UnionSize(base, p - base);
    SubsetSize(p, base + (p - base));
  }

  lemma FirstLogs(fs: FileSystem, a: Addr, b: Addr)
    requires |fs.Bitmaps()| <= 1 && fs.log.cache.Pinned() == {a}
    ensures Logs(fs, fs.Bitmaps() + {a, b}, 0) && Logs(fs, fs.Bitmaps() + {a, b}, 2)
  {
    hide Cache.Pinned, FileSystem.Bitmaps;
    UnionSize(fs.Bitmaps(), {a, b});
    assert fs.log.cache.Pinned() - (fs.Bitmaps() + {a, b}) == {};
  }

  lemma LogsBound(fs: FileSystem, base: set<Addr>, s0: Snap, s: Snap, inum: nat, k: nat)
    requires EntryCost(fs.g, fs.log.area, fs.Bitmaps(), s0, s, inum, k) && s.pinned == fs.log.cache.Pinned()
    requires fs.Bitmaps() <= base && |base| <= 3 && Within(s0.pinned, base, 2)
             && fs.log.area.To(fs.g.IBlock(inum)) in base
    ensures |fs.log.cache.Pinned()| <= 7
  {
    hide Cache.Pinned, FileSystem.Bitmaps, Geometry.IBlock, BlocksNeeded, TableBlock, Within;
    var t := TableBlock(fs.log.area, s.ino);
    OneTable(fs.log.area, s.ino);
    var more := fs.Bitmaps() + {fs.log.area.To(fs.g.IBlock(inum))} + t;
    assert s0.pinned + fs.Bitmaps() + {fs.log.area.To(fs.g.IBlock(inum))} + t == s0.pinned + more;
    LogsMore(base, s0.pinned, more, s.pinned, 2);
    assert base + more == base + t;
    WithinSize(s.pinned, base + t, 3);
    UnionSize(base, t);
  }

  // ---- the dots ---------------------------------------------------------------------------------------------

  lemma SmallSpace(fs: FileSystem, ip: Inode, k: nat)
    requires |ip.addrs| == NDIRECT + 1 && k <= 1
    requires |fs.fs.owner| + GrowBy(ip.size, DESIZE * k + DESIZE) <= fs.g.start - fs.g.DataStart()
    ensures SpaceAt(fs, ip, k)
  {
    assert Blocks(DESIZE * k + DESIZE) <= NDIRECT;
    hide GrowBy;
  }

  /** An entry at the start of a file needs no table. */
  lemma SmallCost(g: Geometry, log: Area, bitmaps: set<Addr>, s0: Snap, s: Snap, inum: nat, k: nat, base: set<Addr>,
                  n: nat)
    requires EntryCost(g, log, bitmaps, s0, s, inum, k) && k <= 1 && s0.ino.addrs[TABLE] == 0
    requires bitmaps <= base && log.To(g.IBlock(inum)) in base && Within(s0.pinned, base, n)
    ensures s.ino.addrs[TABLE] == 0 && Within(s.pinned, base, n + 1)
    ensures s.owned <= s0.owned + GrowBy(s0.ino.size, DESIZE * k + DESIZE)
  {
    assert Blocks(DESIZE * k + DESIZE) <= NDIRECT;
    hide GrowBy, Within, Geometry.IBlock;
    var more := bitmaps + {log.To(g.IBlock(inum))};
    assert s0.pinned + bitmaps + {log.To(g.IBlock(inum))} + TableBlock(log, s.ino) == s0.pinned + more;
    LogsMore(base, s0.pinned, more, s.pinned, n);
    assert base + more == base;
  }

  /** One of the dots goes into a new directory. */
  method AddDot(fs: FileSystem, ip: Inode, name: Name, inum: int, ghost base: set<Addr>, ghost n: nat)
    requires fs.Tied(ip) && ip.typ == T_DIR && NoNul(name) && 0 < inum < 0x10000 && ip.addrs[TABLE] == 0 && n <= 3
    requires Working(fs) && Logs(fs, base, n) && InodeBlock(fs, ip) in base
    requires var ents := Table(fs)[ip.inum].ents;
             && NoDup(ents) && Get(ents, Trunc(name)) == 0 && FirstFree(ents) == |ents| <= 1
             && |fs.fs.owner| + GrowBy(ip.size, DESIZE * |ents| + DESIZE) <= fs.g.start - fs.g.DataStart()
    modifies fs.log, fs.log.cache, fs`fs, ip`addrs, ip`size
    ensures fs.Tied(ip) && Working(fs) && fs.log.commits == old(fs.log.commits)
    ensures fs.fs.tab == old(fs.fs.tab)[ip.inum := ip.Fields()] && ip.addrs[TABLE] == 0
    ensures Table(fs) == Links.AddEntry(old(Table(fs)), ip.inum, Trunc(name), inum) && Logs(fs, base, n + 1)
    ensures FilesKept(old(fs.log.View()), old(fs.fs.tab), fs.log.View(), fs.fs.tab, {ip.inum})
    ensures var k := |old(Table(fs))[ip.inum].ents|;
            |fs.fs.owner| <= |old(fs.fs.owner)| + GrowBy(old(ip.size), DESIZE * k + DESIZE)
  {
    hide Calm, Whole, FreeBare, L.Log.View, Cache.Pinned, FileSystem.Bitmaps, Get, NoDup, NodeOf, RoomFor,
         Within, EntryCost, SpaceAt, GrowBy;
    ghost var s0, k := fs.Now(ip), |Table(fs)[ip.inum].ents|;
    LogsRoom(fs, ip, base, n);
    SmallSpace(fs, ip, k);
    var r := AddName(fs, ip, name, inum);
    SmallCost(fs.g, fs.log.area, fs.Bitmaps(), s0, fs.Now(ip), ip.inum, k, base, n);
  }

  lemma DotsFree(x: int)
    requires x != 0
    ensures FirstFree([]) == 0 && FirstFree([Ent(x, Links.DOT)]) == 1 && NoNul(Links.DOT) && NoNul(Links.DOTDOT)
    ensures GrowBy(0, DESIZE) == 1 && GrowBy(DESIZE, DESIZE + DESIZE) == 0
  {
    var ents := [Ent(x, Links.DOT)];
    assert ents[1..] == [];
  }

  /** "." and ".." of a new directory. */
  method MakeDots(fs: FileSystem, ip: Inode, parent: int, ghost base: set<Addr>)
    requires fs.Tied(ip) && ip.typ == T_DIR && 0 < ip.inum < 0x10000 && 0 < parent < 0x10000 && ip.addrs[TABLE] == 0
    requires Working(fs) && Logs(fs, base, 0) && InodeBlock(fs, ip) in base
    requires Table(fs)[ip.inum].ents == [] && |fs.fs.owner| + 1 <= fs.g.start - fs.g.DataStart()
    modifies fs.log, fs.log.cache, fs`fs, ip`addrs, ip`size
    ensures fs.Tied(ip) && Working(fs) && fs.log.commits == old(fs.log.commits)
    ensures fs.fs.tab == old(fs.fs.tab)[ip.inum := ip.Fields()] && |fs.fs.owner| <= |old(fs.fs.owner)| + 1
    ensures var n := old(Table(fs))[ip.inum];
            Table(fs) == old(Table(fs))[ip.inum := n.(ents := [Ent(ip.inum, Links.DOT), Ent(parent, Links.DOTDOT)])]
    ensures Logs(fs, base, 2) && FilesKept(old(fs.log.View()), old(fs.fs.tab), fs.log.View(), fs.fs.tab, {ip.inum})
  {
    hide Calm, Whole, FreeBare, L.Log.View, Cache.Pinned, FileSystem.Bitmaps, Get, NoDup, NodeOf, Within, InodeBlock,
         Add, FirstFree, Logs;
    Links.DotAdded(ip.inum, parent);
    DotsFree(ip.inum);
    DirSize(fs, ip);
    ghost var v, tab := fs.log.View(), fs.fs.tab;
    AddDot(fs, ip, Links.DOT, ip.inum, base, 0);
    DirSize(fs, ip);
    ghost var v1, tab1 := fs.log.View(), fs.fs.tab;
    AddDot(fs, ip, Links.DOTDOT, parent, base, 1);
    FilesKeptTrans(v, tab, v1, tab1, fs.log.View(), fs.fs.tab, {ip.inum}, {ip.inum});
    assert {ip.inum} + {ip.inum} == {ip.inum};
  }

  /** The part of create for directories: one more link to the parent, then the dots. */
  method Furnish(fs: FileSystem, ip: Inode, dp: Inode, ghost base: set<Addr>)
    requires fs.Tied(ip) && fs.Tied(dp) && ip.inum != dp.inum && 0 < ip.inum < 0x10000 && 0 < dp.inum < 0x10000
    requires ip.typ == T_DIR && ip.addrs[TABLE] == 0 && dp.nlink < 0xFFFF
    requires Working(fs) && Logs(fs, base, 0) && InodeBlock(fs, ip) in base && InodeBlock(fs, dp) in base
    requires Table(fs)[ip.inum].ents == [] && |fs.fs.owner| + 1 <= fs.g.start - fs.g.DataStart()
    modifies fs.log, fs.log.cache, fs`fs, ip`addrs, ip`size, dp`major, dp`minor, dp`nlink
    ensures fs.Tied(ip) && fs.Tied(dp) && Working(fs) && fs.log.commits == old(fs.log.commits)
    ensures dp.Fields() == old(dp.Fields()).(nlink := old(dp.nlink) + 1) && |fs.fs.owner| <= |old(fs.fs.owner)| + 1
    ensures var n := old(Table(fs))[ip.inum].(ents := [Ent(ip.inum, Links.DOT), Ent(dp.inum, Links.DOTDOT)]);
            Table(fs) == Links.Bump(old(Table(fs))[ip.inum := n], dp.inum, 1)
    ensures Logs(fs, base, 2) && |fs.fs.tab| == |old(fs.fs.tab)|
    ensures FilesKept(old(fs.log.View()), old(fs.fs.tab), fs.log.View(), fs.fs.tab, {ip.inum})
  {
    hide Calm, Whole, FreeBare, L.Log.View, Cache.Pinned, FileSystem.Bitmaps, NodeOf, InodeBlock;
    NodeIs(fs, dp);
    LogsLoad(fs.log.cache.Pinned(), base, InodeBlock(fs, dp));
    SetLinks(fs, dp, dp.nlink + 1);
    assert fs.log.cache.Pinned() - base == old(fs.log.cache.Pinned()) - base;
    ghost var v1, tab1 := fs.log.View(), fs.fs.tab;
    MakeDots(fs, ip, dp.inum, base);
    FilesKeptTrans(old(fs.log.View()), old(fs.fs.tab), v1, tab1, fs.log.View(), fs.fs.tab, {}, {ip.inum});
    assert {} + {ip.inum} == {ip.inum};
  }

  // ---- create -----------------------------------------------------------------------------------------------

  /** The disk can hold a new entry of `dp` and, for a directory, its dots. */
  ghost predicate SpaceToCreate(fs: FileSystem, dp: Inode, k: nat, typ: ushort)
    reads fs, dp
  {
    && |dp.addrs| == NDIRECT + 1 && DESIZE * k + DESIZE <= MAXBYTES
    && |fs.fs.owner| + BlocksNeeded(dp.Fields(), DESIZE * k + DESIZE) + (if typ == T_DIR then 1 else 0)
       <= fs.g.start - fs.g.DataStart()
  }

  /** What create makes of the nodes. */
  ghost function AfterNew(t: seq<Links.Node>, x: nat, dp: nat, name: Name, typ: ushort): (r: seq<Links.Node>)
    requires x < |t| && dp < |t|
  {
    if typ == T_DIR then Links.AfterMkdir(t, x, dp, name) else Links.AfterCreate(t, x, dp, name, typ == T_DEV)
  }

  /** The new inode: one link, and the dots if it is a directory. */
  function NewOne(x: nat, dp: nat, typ: ushort): (n: Links.Node) {
    Links.Node(TypOf(typ), 1, if typ == T_DIR then [Ent(x, Links.DOT), Ent(dp, Links.DOTDOT)] else [])
  }

  /** An inode as create makes it; a file or a device has no bytes and no blocks. */
  ghost predicate IsNew(ip: Inode, typ: ushort, major: ushort, minor: ushort)
    reads ip
  {
    && ip.typ == typ && ip.major == major && ip.minor == minor && ip.nlink == 1
    && (typ != T_DIR ==> Blank(ip.Fields()))
  }

  /** A new inode, with its dots if it is a directory. */
  method NewNode(fs: FileSystem, dp: Inode, typ: ushort, major: ushort, minor: ushort)
    returns (ip: Inode, ghost base: set<Addr>)
    requires fs.Tied(dp) && 0 < dp.inum && dp.typ == T_DIR && (typ == T_DIR ==> dp.nlink < 0xFFFF)
    requires Working(fs) && fs.log.cache.Pinned() == {} && |fs.Bitmaps()| <= 1 && |fs.fs.tab| <= 0x10000 && typ != 0
    requires exists x :: 0 < x < |fs.fs.tab| && fs.fs.tab[x].typ == 0
    requires typ == T_DIR ==> |fs.fs.owner| + 1 <= fs.g.start - fs.g.DataStart()
    modifies fs.log, fs.log.cache, fs`fs, dp`major, dp`minor, dp`nlink
    ensures fresh(ip) && fs.Tied(ip) && fs.Tied(dp) && Working(fs) && fs.log.commits == old(fs.log.commits)
    ensures 0 < ip.inum < |old(fs.fs.tab)| == |fs.fs.tab| && old(fs.fs.tab)[ip.inum].typ == 0
    ensures dp.size == old(dp.size) && dp.addrs == old(dp.addrs)
    ensures dp.major == old(dp.major) && dp.minor == old(dp.minor)
    ensures IsNew(ip, typ, major, minor)
    ensures FilesKept(old(fs.log.View()), old(fs.fs.tab), fs.log.View(), fs.fs.tab, {ip.inum})
    ensures |fs.fs.owner| <= |old(fs.fs.owner)| + if typ == T_DIR then 1 else 0
    ensures var n := NewOne(ip.inum, dp.inum, typ);
            Table(fs) == Links.Bump(old(Table(fs))[ip.inum := n], dp.inum, if typ == T_DIR then 1 else 0)
    ensures Logs(fs, base, 2) && InodeBlock(fs, dp) in base
  {
    hide Calm, Whole, FreeBare, L.Log.View, Cache.Pinned, FileSystem.Bitmaps, NodeOf, InodeBlock, Logs,
         FilesKept, TypOf;
    ip := NewInode(fs, typ, major, minor);
    base := fs.Bitmaps() + {InodeBlock(fs, ip), InodeBlock(fs, dp)};
    FirstLogs(fs, InodeBlock(fs, ip), InodeBlock(fs, dp));
    ghost var v1, tab1 := fs.log.View(), fs.fs.tab;
    if typ == T_DIR {
      Furnish(fs, ip, dp, base);
      FilesKeptTrans(old(fs.log.View()), old(fs.fs.tab), v1, tab1, fs.log.View(), fs.fs.tab, {ip.inum}, {ip.inum});
      assert {ip.inum} + {ip.inum} == {ip.inum};
    }
  }

  lemma NewIsAfter(t: seq<Links.Node>, x: nat, dp: nat, name: Name, typ: ushort)
    requires x < |t| && dp < |t| && x != dp && typ != 0
    ensures Links.AddEntry(Links.Bump(t[x := NewOne(x, dp, typ)], dp, if typ == T_DIR then 1 else 0), dp, name, x)
            == AfterNew(t, x, dp, name, typ)
  {
    hide Add;
  }

  /** The new inode gets its name. */
  method NameNode(fs: FileSystem, dp: Inode, name: Name, inum: int, ghost base: set<Addr>)
    requires fs.Tied(dp) && dp.typ == T_DIR && NoNul(name) && 0 < inum < 0x10000
    requires Working(fs) && NoDup(Table(fs)[dp.inum].ents) && SpaceAt(fs, dp, FirstFree(Table(fs)[dp.inum].ents))
    requires Get(Table(fs)[dp.inum].ents, Trunc(name)) == 0 && Logs(fs, base, 2) && InodeBlock(fs, dp) in base
    modifies fs.log, fs.log.cache, fs`fs, dp`addrs, dp`size
    ensures fs.Tied(dp) && Working(fs) && fs.log.commits == old(fs.log.commits)
    ensures fs.fs.tab == old(fs.fs.tab)[dp.inum := dp.Fields()] && |fs.log.cache.Pinned()| <= 7
    ensures FilesKept(old(fs.log.View()), old(fs.fs.tab), fs.log.View(), fs.fs.tab, {dp.inum})
    ensures Table(fs) == Links.AddEntry(old(Table(fs)), dp.inum, Trunc(name), inum)
  {
    hide Calm, Whole, FreeBare, L.Log.View, Cache.Pinned, FileSystem.Bitmaps, NodeOf, NoDup, Get, FirstFree, Add,
         EntryCost, RoomFor, SpaceAt;
    LogsRoom(fs, dp, base, 2);
    ghost var s0, k := fs.Now(dp), FirstFree(Table(fs)[dp.inum].ents);
    var r := AddName(fs, dp, name, inum);
    LogsBound(fs, base, s0, fs.Now(dp), dp.inum, k);
  }

  lemma NeededSame(dp: Inode, d: Dinode, end: nat)
    requires |dp.addrs| == NDIRECT + 1 && dp.addrs == d.addrs && dp.size == d.size
    ensures BlocksNeeded(dp.Fields(), end) == BlocksNeeded(d, end)
  {
  }

  lemma BumpEnts(t: seq<Links.Node>, x: nat, n: int)
    requires x < |t|
    ensures Links.Bump(t, x, n)[x].ents == t[x].ents
  {
  }

  /** The rest of create once the name is known to be new. */
  method MakeNode(fs: FileSystem, dp: Inode, name: Name, typ: ushort, major: ushort, minor: ushort) returns (ip: Inode)
    requires fs.Tied(dp) && 0 < dp.inum && dp.typ == T_DIR && (typ == T_DIR ==> dp.nlink < 0xFFFF) && NoNul(name)
    requires Working(fs) && fs.log.cache.Pinned() == {} && |fs.Bitmaps()| <= 1 && |fs.fs.tab| <= 0x10000 && typ != 0
    requires exists x :: 0 < x < |fs.fs.tab| && fs.fs.tab[x].typ == 0
    requires NoDup(Table(fs)[dp.inum].ents) && Get(Table(fs)[dp.inum].ents, Trunc(name)) == 0
    requires SpaceToCreate(fs, dp, FirstFree(Table(fs)[dp.inum].ents), typ)
    modifies fs.log, fs.log.cache, fs`fs, dp`addrs, dp`size, dp`major, dp`minor, dp`nlink
    ensures fresh(ip) && fs.Tied(ip) && fs.Tied(dp) && Working(fs) && fs.log.commits == old(fs.log.commits)
    ensures 0 < ip.inum < |old(fs.fs.tab)| == |fs.fs.tab| && old(fs.fs.tab)[ip.inum].typ == 0
    ensures Table(fs) == AfterNew(old(Table(fs)), ip.inum, dp.inum, Trunc(name), typ)
    ensures IsNew(ip, typ, major, minor)
    ensures FilesKept(old(fs.log.View()), old(fs.fs.tab), fs.log.View(), fs.fs.tab, {ip.inum, dp.inum})
    ensures dp.major == old(dp.major) && dp.minor == old(dp.minor)
    ensures |fs.log.cache.Pinned()| <= 7
  {
    hide Calm, Whole, FreeBare, L.Log.View, Cache.Pinned, FileSystem.Bitmaps, NodeOf, NoDup, Get, FirstFree, Add,
         AfterNew, NewOne, BlocksNeeded, InodeBlock, Logs, FilesKept, IsNew, Links.Bump, Links.AddEntry;
    ghost var t := Table(fs);
    ghost var base;
    ip, base := NewNode(fs, dp, typ, major, minor);
    NeededSame(dp, old(dp.Fields()), DESIZE * FirstFree(t[dp.inum].ents) + DESIZE);
    BumpEnts(t[ip.inum := NewOne(ip.inum, dp.inum, typ)], dp.inum, if typ == T_DIR then 1 else 0);
    ghost var v1, tab1 := fs.log.View(), fs.fs.tab;
    NameNode(fs, dp, name, ip.inum, base);
    FilesKeptTrans(old(fs.log.View()), old(fs.fs.tab), v1, tab1, fs.log.View(), fs.fs.tab, {ip.inum}, {dp.inum});
    assert {ip.inum} + {dp.inum} == {ip.inum, dp.inum};
    NewIsAfter(t, ip.inum, dp.inum, Trunc(name), typ);
  }

  const T_FILE: ushort := 2

  /** Free inodes and blocks for what create may make. */
  ghost predicate CanMake(fs: FileSystem, dp: Inode, name: Name, typ: ushort)
    reads fs, fs.log, fs.log.cache, dp
  {
    && fs.Tied(dp) && 0 < dp.inum && dp.typ == T_DIR && NoNul(name) && typ != 0 && Whole(fs.log.View(), fs.fs.tab)
    && (Get(Table(fs)[dp.inum].ents, Trunc(name)) == 0 ==>
        && (exists x :: 0 < x < |fs.fs.tab| && fs.fs.tab[x].typ == 0) && (typ == T_DIR ==> dp.nlink < 0xFFFF)
        && SpaceToCreate(fs, dp, FirstFree(Table(fs)[dp.inum].ents), typ))
  }

  /** create within its transaction: an existing inode is returned only if it is a file and a file is wanted. */
  method CreateInode(fs: FileSystem, dp: Inode, name: Name, typ: ushort, major: ushort, minor: ushort)
    returns (ok: bool, ip: Inode)
    requires CanMake(fs, dp, name, typ) && |fs.fs.tab| <= 0x10000
    requires Working(fs) && fs.log.cache.Pinned() == {} && |fs.Bitmaps()| <= 1 && Links.Inv(Table(fs))
    modifies fs.log, fs.log.cache, fs`fs, dp`addrs, dp`size, dp`major, dp`minor, dp`nlink
    ensures fresh(ip) && fs.Tied(ip) && fs.Tied(dp) && Working(fs) && fs.log.commits == old(fs.log.commits)
    ensures var y := Get(old(Table(fs))[dp.inum].ents, Trunc(name));
            if y != 0 then
              && Table(fs) == old(Table(fs)) && ip.inum == y && (ok <==> typ == T_FILE && ip.typ == T_FILE)
              && fs.fs == old(fs.fs) && fs.log.View() == old(fs.log.View())
            else
              && IsNew(ip, typ, major, minor)
              && FilesKept(old(fs.log.View()), old(fs.fs.tab), fs.log.View(), fs.fs.tab, {ip.inum, dp.inum})
              && (typ != T_DIR ==> NoBytes(fs.log.View(), ip.Fields()))
              && ok && 0 < ip.inum < |old(Table(fs))| && old(Table(fs))[ip.inum].typ == Links.Free
              && Table(fs) == AfterNew(old(Table(fs)), ip.inum, dp.inum, Trunc(name), typ)
    ensures dp.major == old(dp.major) && dp.minor == old(dp.minor) && |fs.log.cache.Pinned()| <= 7
  {
    hide Calm, Whole, FreeBare, L.Log.View, Cache.Pinned, FileSystem.Bitmaps, NodeOf, NoDup, Get, Find, FirstFree, Add,
         AfterNew, SpaceToCreate, Links.Inv, FilesKept, Blank, NoBytes;
    ghost var v, tab, t := fs.log.View(), fs.fs.tab, Table(fs);
    NodeIs(fs, dp);
    Links.EntryRange(t, dp.inum, name);
    Links.NoDups(t, dp.inum);
    var y, _ := FindName(fs, dp, name);
    if y != 0 {
      ip := Ilock(fs, y);
      return typ == T_FILE && ip.typ == T_FILE, ip;
    }
    ip := MakeNode(fs, dp, name, typ, major, minor);
    NodeTyp(v, tab, ip.inum);
    if typ != T_DIR {
      BlankNoBytes(fs.log.View(), ip.Fields());
    }
    ok := true;
  }

  lemma NewKeeps(t: seq<Links.Node>, x: nat, dp: nat, name: Name, typ: ushort)
    requires Links.CanCreate(t, x, dp, name) && Links.RemovedEmpty(t)
    ensures Links.Inv(AfterNew(t, x, dp, name, typ)) <==> Links.Linked(t[dp])
    ensures Links.Linked(t[dp]) ==> Links.RemovedEmpty(AfterNew(t, x, dp, name, typ))
  {
    hide Links.Inv, Links.RemovedEmpty, Links.AfterMkdir, Links.AfterCreate;
    Links.MkdirKeeps(t, x, dp, name);
    Links.CreateKeeps(t, x, dp, name, typ == T_DEV);
    if Links.Linked(t[dp]) {
      Links.CreateRemoved(t, x, dp, name, typ == T_DEV);
    }
  }
}
