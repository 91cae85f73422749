/** Changes to one node of the inode table at a time: link counts, entries, and inodes that come and go; and the
    transactions around them. */
module DiskNodes {
  import opened Bytes
  import opened BufferCache
  import opened Layout
  import opened Recovery
  import opened FsImage
  import opened FileBytes
  import opened FileSystem
  import opened Dirs
  import opened DirFiles
  import opened DiskInodes
  import opened DiskLinks
  import Links
  import L = Log

  /** The nodes of the clients' view. */
  ghost function Table(fs: FileSystem): (t: seq<Links.Node>)
    reads fs, fs.log, fs.log.cache
    requires Whole(fs.log.View(), fs.fs.tab)
  {
    Nodes(fs.log.View(), fs.fs.tab)
  }

  /** In a transaction, with directories that can be read. */
  ghost predicate Working(fs: FileSystem)
    reads fs, fs.log, fs.log.cache
  {
    fs.log.busy && Calm(fs) && Whole(fs.log.View(), fs.fs.tab) && FreeBare(fs.fs.tab)
  }

  /** Nothing changed but which buffers are cached. */
  twostate predicate Still(fs: FileSystem)
    reads fs, fs.log, fs.log.cache
  {
    && fs.log.View() == old(fs.log.View()) && fs.fs == old(fs.fs) && fs.log.cache.Pinned() == old(fs.log.cache.Pinned())
    && fs.log.busy == old(fs.log.busy) && fs.log.commits == old(fs.log.commits)
  }

  lemma CalmSynced(fs: FileSystem)
    requires Calm(fs)
    ensures Synced(fs.g, fs.log.View(), fs.fs.tab, -1)
  {
  }

  lemma CalmFacts(fs: FileSystem)
    requires Calm(fs)
    ensures fs.g.Ok() && Tables(fs.g, fs.fs.tab)
  {
    fs.ReadyFacts({});
  }

  lemma NoneHeld(fs: FileSystem)
    requires Calm(fs)
    ensures fs.log.cache.Held() == {}
  {
  }

  lemma StillCalm(fs: FileSystem, dp: Inode)
    requires IsDir(fs, dp) && Synced(fs.g, fs.log.View(), fs.fs.tab, -1)
    ensures Calm(fs) && fs.Tied(dp)
  {
    hide L.Log.View, Cache.Held, Cache.Pinned, FileSystem.Ready, Synced, Filled;
  }

  lemma WholeAt(v: Image, tab: seq<Dinode>, i: nat)
    requires Whole(v, tab) && i < |tab|
    ensures WholeDir(v, tab[i])
  {
  }

  lemma NodeIs(fs: FileSystem, ip: Inode)
    requires fs.Tied(ip) && Whole(fs.log.View(), fs.fs.tab)
    ensures Table(fs)[ip.inum].nlink == ip.nlink && Table(fs)[ip.inum].typ == TypOf(ip.typ)
  {
  }

  lemma NodeTyp(v: Image, tab: seq<Dinode>, i: nat)
    requires Whole(v, tab) && i < |tab|
    ensures Nodes(v, tab)[i].typ == TypOf(tab[i].typ)
  {
  }

  lemma DirIs(fs: FileSystem, dp: Inode)
    requires Calm(fs) && Whole(fs.log.View(), fs.fs.tab) && fs.Tied(dp) && dp.typ == T_DIR
    ensures IsDir(fs, dp) && Ents(fs, dp) == NodeOf(fs.log.View(), dp.Fields()).ents
  {
    hide L.Log.View, Cache.Held, Cache.Pinned, FileSystem.Ready, Synced, Content, Entries;
    assert WholeDir(fs.log.View(), fs.fs.tab[dp.inum]);
  }

  lemma DirNode(fs: FileSystem, dp: Inode)
    requires IsDir(fs, dp)
    ensures WholeDir(fs.log.View(), dp.Fields()) && fs.Tied(dp)
    ensures NodeOf(fs.log.View(), dp.Fields()) == Links.Node(Links.Dir, dp.nlink, Ents(fs, dp))
  {
    hide L.Log.View, Cache.Held, Cache.Pinned, FileSystem.Ready, Synced, Content, Entries;
  }

  lemma DirSize(fs: FileSystem, dp: Inode)
    requires fs.Tied(dp) && dp.typ == T_DIR && Whole(fs.log.View(), fs.fs.tab)
    ensures dp.size == DESIZE * |Table(fs)[dp.inum].ents|
  {
    assert WholeDir(fs.log.View(), dp.Fields());
  }

  // ---- files that are left alone ----------------------------------------------------------------------------

  /** The same inode but for its link count, with the same blocks and the same data in them. */
  ghost predicate SameInode(v: Image, d: Dinode, v': Image, d': Dinode) {
    d' == d.(nlink := d'.nlink) && (|d.addrs| == NDIRECT + 1 ==> SameFile(v, v', d))
  }

  /** Every inode but those in `but` is the same, perhaps with another link count. */
  ghost predicate FilesKept(v: Image, tab: seq<Dinode>, v': Image, tab': seq<Dinode>, but: set<int>) {
    |tab'| == |tab| && forall k :: 0 <= k < |tab| && k !in but ==> SameInode(v, tab[k], v', tab'[k])
  }

  lemma KeptRefl(v: Image, tab: seq<Dinode>)
    ensures FilesKept(v, tab, v, tab, {})
  {
  }

  lemma KeptOthers(v: Image, tab: seq<Dinode>, v': Image, tab': seq<Dinode>, i: nat)
    requires OthersSame(v, tab, v', tab', i)
    ensures FilesKept(v, tab, v', tab', {i})
  {
    hide SameFile;
  }

  lemma KeptMeta(v: Image, tab: seq<Dinode>, v': Image, tab': seq<Dinode>, i: nat, n: ushort)
    requires OthersSame(v, tab, v', tab', i) && i < |tab| && tab'[i] == tab[i].(nlink := n)
    requires |tab[i].addrs| == NDIRECT + 1 && SameFile(v, v', tab'[i])
    ensures FilesKept(v, tab, v', tab', {})
  {
    SameFileLike(v, v', tab'[i], tab[i]);
    hide SameFile;
  }

  /** Which file an inode stands for depends on its addresses only. */
  lemma SameFileLike(v: Image, v': Image, d: Dinode, d': Dinode)
    requires |d.addrs| == NDIRECT + 1 && d'.addrs == d.addrs && SameFile(v, v', d)
    ensures SameFile(v, v', d')
  {
    forall p: nat | p < POSITIONS ensures At(v, d', p) == At(v, d, p) && At(v', d', p) == At(v', d, p) {
    }
  }

  lemma FilesKeptTrans(v: Image, tab: seq<Dinode>, v1: Image, tab1: seq<Dinode>, v2: Image, tab2: seq<Dinode>,
                       a: set<int>, b: set<int>)
    requires FilesKept(v, tab, v1, tab1, a) && FilesKept(v1, tab1, v2, tab2, b)
    ensures FilesKept(v, tab, v2, tab2, a + b)
  {
    forall k | 0 <= k < |tab| && k !in a + b ensures SameInode(v, tab[k], v2, tab2[k]) {
      SameInodeTrans(v, tab[k], v1, tab1[k], v2, tab2[k]);
    }
  }

  lemma SameInodeTrans(v: Image, d: Dinode, v1: Image, d1: Dinode, v2: Image, d2: Dinode)
    requires SameInode(v, d, v1, d1) && SameInode(v1, d1, v2, d2)
    ensures SameInode(v, d, v2, d2)
  {
    if |d.addrs| == NDIRECT + 1 {
      SameFileLike(v1, v2, d1, d);
    }
  }

  /** So whole files keep their bytes. */
  lemma KeptContent(v: Image, tab: seq<Dinode>, v': Image, tab': seq<Dinode>, but: set<int>, k: nat)
    requires FilesKept(v, tab, v', tab', but) && k < |tab| && k !in but
    requires |tab[k].addrs| == NDIRECT + 1 && Filled(v, tab[k])
    ensures Filled(v', tab'[k]) && Content(v', tab'[k]) == Content(v, tab[k])
  {
    SameFileSameContent(v, v', tab[k]);
    assert Content(v', tab'[k]) == Content(v', tab[k]);
  }

  // ---- one node at a time -----------------------------------------------------------------------------------

  ghost function InodeBlock(fs: FileSystem, ip: Inode): (a: Addr) {
    fs.log.area.To(fs.g.IBlock(ip.inum))
  }

  /** A new link count. */
  method SetLinks(fs: FileSystem, ip: Inode, n: ushort)
    requires fs.Tied(ip) && Working(fs)
    requires |fs.log.cache.Pinned() + {InodeBlock(fs, ip)}| <= L.MAXLOAD
    modifies fs.log, fs.log.cache, fs`fs, ip`major, ip`minor, ip`nlink
    ensures fs.Tied(ip) && Working(fs) && fs.log.commits == old(fs.log.commits)
    ensures ip.Fields() == old(ip.Fields()).(nlink := n) && fs.fs.owner == old(fs.fs.owner)
    ensures fs.fs.tab == old(fs.fs.tab)[ip.inum := ip.Fields()]
    ensures Table(fs) == old(Table(fs))[ip.inum := old(Table(fs))[ip.inum].(nlink := n)]
    ensures FilesKept(old(fs.log.View()), old(fs.fs.tab), fs.log.View(), fs.fs.tab, {})
    ensures fs.log.cache.Pinned() == old(fs.log.cache.Pinned()) + {InodeBlock(fs, ip)}
  {
    hide Calm, L.Log.View, Cache.Pinned, Whole, WholeDir, OthersSame, SameFile, Geometry.IBlock, NodeOf;
    ghost var v, tab := fs.log.View(), fs.fs.tab;
    WholeAt(v, tab, ip.inum);
    SetMeta(fs, ip, ip.major, ip.minor, n);
    MetaNode(v, fs.log.View(), tab[ip.inum], ip.Fields());
    OneNode(v, tab, fs.log.View(), fs.fs.tab, ip.inum);
    KeptMeta(v, tab, fs.log.View(), fs.fs.tab, ip.inum, n);
  }

  /** After a write to one directory. */
  lemma OneDir(fs: FileSystem, dp: Inode, v: Image, tab: seq<Dinode>)
    requires IsDir(fs, dp) && Synced(fs.g, fs.log.View(), fs.fs.tab, -1)
    requires Whole(v, tab) && FreeBare(tab) && OthersSame(v, tab, fs.log.View(), fs.fs.tab, dp.inum) && dp.inum < |tab|
    ensures Calm(fs) && Whole(fs.log.View(), fs.fs.tab) && FreeBare(fs.fs.tab) && fs.Tied(dp)
    ensures fs.fs.tab == tab[dp.inum := dp.Fields()] && FilesKept(v, tab, fs.log.View(), fs.fs.tab, {dp.inum})
    ensures Table(fs) == Nodes(v, tab)[dp.inum := Links.Node(Links.Dir, dp.nlink, Ents(fs, dp))]
  {
    hide L.Log.View, Cache.Held, Cache.Pinned, FileSystem.Ready, Synced, OthersSame, Whole, NodeOf, Ents, Filled;
    DirNode(fs, dp);
    KeptOthers(v, tab, fs.log.View(), fs.fs.tab, dp.inum);
    OthersTab(v, tab, fs.log.View(), fs.fs.tab, dp.inum);
    OneNode(v, tab, fs.log.View(), fs.fs.tab, dp.inum);
  }

  /** dirlookup */
  method FindName(fs: FileSystem, dp: Inode, name: Name) returns (inum: int, off: uint)
    requires fs.Tied(dp) && dp.typ == T_DIR && NoNul(name) && Calm(fs) && Whole(fs.log.View(), fs.fs.tab)
    modifies fs.log, fs.log.cache, fs`fs, dp`addrs
    ensures fs.Tied(dp) && Calm(fs) && Still(fs) && dp.Fields() == old(dp.Fields())
    ensures inum == Get(Table(fs)[dp.inum].ents, Trunc(name))
    ensures inum != 0 ==> off == DESIZE * Find(Table(fs)[dp.inum].ents, Trunc(name))
  {
    hide Calm, L.Log.View, Cache.Pinned, Whole, NodeOf, IsDir, Ents, Get, Find;
    DirIs(fs, dp);
    DirNode(fs, dp);
    CalmSynced(fs);
    inum, off := Dirlookup(fs, dp, name);
    StillCalm(fs, dp);
    DirNode(fs, dp);
  }

  /** isdirempty */
  method IsDirEmpty(fs: FileSystem, dp: Inode) returns (b: bool)
    requires IsDir(fs, dp)
    modifies fs.log, fs.log.cache, fs`fs, dp`addrs
    ensures IsDir(fs, dp) && Untouched(fs, dp) && Ents(fs, dp) == old(Ents(fs, dp))
    ensures b <==> Links.Empty(Ents(fs, dp))
  {
    hide IsDir, Ents, Cut, FileSystem.Now;
    var off := 2 * DESIZE;
    ghost var k, ents := 2, Ents(fs, dp);
    SizeIs(fs, dp);
    while off < dp.size
      invariant IsDir(fs, dp) && Untouched(fs, dp) && Ents(fs, dp) == ents && dp.size == old(dp.size)
      invariant off == DESIZE * k && 2 <= k && forall j :: 2 <= j < k && j < |ents| ==> ents[j].inum == 0
    {
      SizeIs(fs, dp);
      var de := ReadEntry(fs, dp, off, k);
      SizeIs(fs, dp);
      if Number(de) != 0 {
        return false;
      }
      k := k + 1;
      off := off + DESIZE;
    }
    return true;
  }

  /** isdirempty of an inode of either kind. */
  method HasNames(fs: FileSystem, ip: Inode) returns (b: bool)
    requires fs.Tied(ip) && Calm(fs) && Whole(fs.log.View(), fs.fs.tab)
    modifies fs.log, fs.log.cache, fs`fs, ip`addrs
    ensures fs.Tied(ip) && Calm(fs) && Still(fs) && ip.Fields() == old(ip.Fields())
    ensures b <==> ip.typ == T_DIR && !Links.Empty(Table(fs)[ip.inum].ents)
  {
    hide Calm, L.Log.View, Cache.Pinned, Whole, NodeOf, IsDir, Ents, Links.Empty;
    if ip.typ != T_DIR {
      return false;
    }
    DirIs(fs, ip);
    DirNode(fs, ip);
    CalmSynced(fs);
    var empty := IsDirEmpty(fs, ip);
    StillCalm(fs, ip);
    DirNode(fs, ip);
    return !empty;
  }

  // ---- entries ----------------------------------------------------------------------------------------------

  /** The file can grow to entry `k`, and the disk has the blocks for it. */
  ghost predicate SpaceAt(fs: FileSystem, dp: Inode, k: nat)
    reads fs, dp
  {
    && |dp.addrs| == NDIRECT + 1 && DESIZE * k + DESIZE <= MAXBYTES
    && |fs.fs.owner| + BlocksNeeded(dp.Fields(), DESIZE * k + DESIZE) <= fs.g.start - fs.g.DataStart()
  }

  /** The cache and the log have room for writing one entry. */
  ghost predicate RoomFor(fs: FileSystem, dp: Inode)
    reads fs, fs.log, fs.log.cache
  {
    |fs.log.cache.Pinned() + fs.Bitmaps() + {InodeBlock(fs, dp)}| + 2 <= L.MAXLOAD
  }

  lemma MayPut(fs: FileSystem, dp: Inode, k: nat)
    requires Working(fs) && IsDir(fs, dp) && SpaceAt(fs, dp, k) && RoomFor(fs, dp)
    ensures fs.CanWrite(dp, DESIZE * k, DESIZE) && DESIZE * k + DESIZE <= MAXBYTES
  {
    hide L.Log.View, Cache.Held, Cache.Pinned, FileSystem.Ready, Synced, Filled, FileSystem.Bitmaps, BlocksNeeded,
         Geometry.IBlock, Geometry.DataStart, Whole;
    assert Covered(DESIZE * k, DESIZE) == 1;
  }

  /** dirlink, and its cost. */
  method AddName(fs: FileSystem, dp: Inode, name: Name, inum: int) returns (r: int)
    requires fs.Tied(dp) && dp.typ == T_DIR && NoNul(name) && 0 < inum < 0x10000
    requires Working(fs) && NoDup(Table(fs)[dp.inum].ents) && SpaceAt(fs, dp, FirstFree(Table(fs)[dp.inum].ents))
    requires RoomFor(fs, dp)
    modifies fs.log, fs.log.cache, fs`fs, dp`addrs, dp`size
    ensures fs.Tied(dp) && Working(fs) && fs.log.commits == old(fs.log.commits)
    ensures r == if Get(old(Table(fs))[dp.inum].ents, Trunc(name)) == 0 then 0 else -1
    ensures fs.fs.tab == old(fs.fs.tab)[dp.inum := dp.Fields()]
    ensures FilesKept(old(fs.log.View()), old(fs.fs.tab), fs.log.View(), fs.fs.tab, {dp.inum})
    ensures r == -1 ==> fs.Now(dp) == old(fs.Now(dp)) && fs.fs == old(fs.fs) && Table(fs) == old(Table(fs))
    ensures r == 0 ==>
              && Table(fs) == Links.AddEntry(old(Table(fs)), dp.inum, Trunc(name), inum)
              && EntryCost(fs.g, fs.log.area, fs.Bitmaps(), old(fs.Now(dp)), fs.Now(dp), dp.inum,
                           FirstFree(old(Table(fs))[dp.inum].ents))
  {
    hide Calm, L.Log.View, Cache.Pinned, Whole, OthersSame, NodeOf, IsDir, Ents, EntryCost, FileSystem.CanWrite,
         FileSystem.Bitmaps, SpaceAt, RoomFor, Get, Find, NoDup, FirstFree;
    ghost var v, tab := fs.log.View(), fs.fs.tab;
    DirIs(fs, dp);
    DirNode(fs, dp);
    MayPut(fs, dp, FirstFree(Ents(fs, dp)));
    CalmSynced(fs);
    r := Dirlink(fs, dp, name, inum);
    if r == 0 {
      OneDir(fs, dp, v, tab);
    } else {
      StillCalm(fs, dp);
      KeptRefl(v, tab);
    }
  }

  /** unlink's zeroed entry, and its cost. */
  method ClearName(fs: FileSystem, dp: Inode, off: uint, ghost k: nat)
    requires fs.Tied(dp) && dp.typ == T_DIR && off == DESIZE * k && RoomFor(fs, dp)
    requires Working(fs) && k < |Table(fs)[dp.inum].ents| && Table(fs)[dp.inum].ents[k].inum != 0 && SpaceAt(fs, dp, k)
    requires NoDup(Table(fs)[dp.inum].ents)
    modifies fs.log, fs.log.cache, fs`fs, dp`addrs, dp`size
    ensures fs.Tied(dp) && Working(fs) && fs.log.commits == old(fs.log.commits)
    ensures fs.fs.tab == old(fs.fs.tab)[dp.inum := dp.Fields()]
    ensures FilesKept(old(fs.log.View()), old(fs.fs.tab), fs.log.View(), fs.fs.tab, {dp.inum})
    ensures var n := old(Table(fs))[dp.inum];
            Table(fs) == old(Table(fs))[dp.inum := n.(ents := n.ents[k := Ent(0, [])])]
    ensures EntryCost(fs.g, fs.log.area, fs.Bitmaps(), old(fs.Now(dp)), fs.Now(dp), dp.inum, k)
  {
    hide Calm, L.Log.View, Cache.Pinned, Whole, OthersSame, NodeOf, IsDir, Ents, EntryCost, FileSystem.CanWrite,
         FileSystem.Bitmaps, SpaceAt, RoomFor, Get, Find, NoDup;
    ghost var v, tab := fs.log.View(), fs.fs.tab;
    DirIs(fs, dp);
    DirNode(fs, dp);
    MayPut(fs, dp, k);
    Dirclear(fs, dp, off, k);
    OneDir(fs, dp, v, tab);
  }

  ghost function Range(lo: int, hi: int): (r: set<int>)
    requires lo <= hi
    ensures |r| <= hi - lo && forall x :: lo <= x < hi ==> x in r
    decreases hi - lo
  {
    if lo == hi then {} else Range(lo, hi - 1) + {hi - 1}
  }

  /** No more blocks are owned than there are data blocks. */
  lemma OwnedFew(fs: FileSystem)
    requires Calm(fs)
    ensures |fs.fs.owner| <= fs.g.start - fs.g.DataStart()
  {
    hide L.Log.View, Cache.Held, Cache.Pinned, Synced, L.Log.Valid, Complete, Marked, References, At;
    SubsetSize(fs.fs.owner.Keys, Range(fs.g.DataStart(), fs.g.start));
  }

  /** An entry that is there can be written without a new block. */
  lemma SpaceThere(fs: FileSystem, dp: Inode, k: nat)
    requires fs.Tied(dp) && dp.typ == T_DIR && Calm(fs) && Whole(fs.log.View(), fs.fs.tab)
    requires k < |Table(fs)[dp.inum].ents|
    ensures SpaceAt(fs, dp, k)
  {
    hide L.Log.View, Cache.Held, Cache.Pinned, FileSystem.Ready, Synced, Content, Entries, Calm;
    OwnedFew(fs);
    assert WholeDir(fs.log.View(), dp.Fields());
    var end := DESIZE * k + DESIZE;
    assert end <= dp.size;
    if Blocks(end) > NDIRECT {
      assert At(fs.log.View(), dp.Fields(), PosOf(NDIRECT)) != 0;
    }
  }

  lemma RoomWhile(fs: FileSystem, dp: Inode)
    requires |fs.Bitmaps()| <= 1 && |fs.log.cache.Pinned()| + 4 <= L.MAXLOAD
    ensures RoomFor(fs, dp)
  {
    hide Cache.Pinned, FileSystem.Bitmaps;
    UnionSize(fs.log.cache.Pinned(), fs.Bitmaps());
    UnionSize(fs.log.cache.Pinned() + fs.Bitmaps(), {InodeBlock(fs, dp)});
  }

  lemma OneTable(log: Area, d: Dinode)
    requires |d.addrs| == NDIRECT + 1
    ensures |TableBlock(log, d)| <= 1
  {
  }

  /** With a single bitmap block an entry costs at most four sectors. */
  lemma CostBound(g: Geometry, log: Area, bitmaps: set<Addr>, s0: Snap, s: Snap, inum: nat, k: nat)
    requires EntryCost(g, log, bitmaps, s0, s, inum, k) && |bitmaps| <= 1
    ensures |s.pinned| <= |s0.pinned| + 4
  {
    hide Geometry.IBlock, BlocksNeeded, TableBlock;
    var base, t := s0.pinned + bitmaps + {log.To(g.IBlock(inum))}, TableBlock(log, s.ino);
    UnionSize(s0.pinned, bitmaps);
    UnionSize(s0.pinned + bitmaps, {log.To(g.IBlock(inum))});
    UnionSize(base, t);
    OneTable(log, s.ino);
    UnionSize(base + t, s.pinned - (base + t));
    SubsetSize(s.pinned, base + t + (s.pinned - (base + t)));
  }

  /** dirlink with an almost empty log. */
  method AddFirst(fs: FileSystem, dp: Inode, name: Name, inum: int) returns (r: int)
    requires fs.Tied(dp) && dp.typ == T_DIR && NoNul(name) && 0 < inum < 0x10000
    requires Working(fs) && NoDup(Table(fs)[dp.inum].ents) && SpaceAt(fs, dp, FirstFree(Table(fs)[dp.inum].ents))
    requires |fs.Bitmaps()| <= 1 && |fs.log.cache.Pinned()| + 4 <= L.MAXLOAD
    modifies fs.log, fs.log.cache, fs`fs, dp`addrs, dp`size
    ensures fs.Tied(dp) && Working(fs) && fs.log.commits == old(fs.log.commits)
    ensures r == if Get(old(Table(fs))[dp.inum].ents, Trunc(name)) == 0 then 0 else -1
    ensures fs.fs.tab == old(fs.fs.tab)[dp.inum := dp.Fields()]
    ensures FilesKept(old(fs.log.View()), old(fs.fs.tab), fs.log.View(), fs.fs.tab, {dp.inum})
    ensures |fs.log.cache.Pinned()| <= |old(fs.log.cache.Pinned())| + 4
    ensures r == -1 ==> fs.Now(dp) == old(fs.Now(dp)) && fs.fs == old(fs.fs) && Table(fs) == old(Table(fs))
    ensures r == 0 ==> Table(fs) == Links.AddEntry(old(Table(fs)), dp.inum, Trunc(name), inum)
  {
    hide Calm, FreeBare, Whole, L.Log.View, Cache.Pinned, FileSystem.Bitmaps, SpaceAt, Get, NoDup, FirstFree, RoomFor,
         EntryCost,
         NodeOf, Add;
    RoomWhile(fs, dp);
    ghost var s0, k := fs.Now(dp), FirstFree(Table(fs)[dp.inum].ents);
    r := AddName(fs, dp, name, inum);
    if r == 0 {
      CostBound(fs.g, fs.log.area, fs.Bitmaps(), s0, fs.Now(dp), dp.inum, k);
    }
  }

  /** unlink's zeroed entry, with an almost empty log. */
  method ClearFirst(fs: FileSystem, dp: Inode, off: uint, ghost k: nat)
    requires fs.Tied(dp) && dp.typ == T_DIR && off == DESIZE * k && |fs.Bitmaps()| <= 1
    requires Working(fs) && k < |Table(fs)[dp.inum].ents| && Table(fs)[dp.inum].ents[k].inum != 0
    requires NoDup(Table(fs)[dp.inum].ents) && |fs.log.cache.Pinned()| + 4 <= L.MAXLOAD
    modifies fs.log, fs.log.cache, fs`fs, dp`addrs, dp`size
    ensures fs.Tied(dp) && Working(fs) && fs.log.commits == old(fs.log.commits)
    ensures fs.fs.tab == old(fs.fs.tab)[dp.inum := dp.Fields()]
    ensures FilesKept(old(fs.log.View()), old(fs.fs.tab), fs.log.View(), fs.fs.tab, {dp.inum})
    ensures var n := old(Table(fs))[dp.inum];
            Table(fs) == old(Table(fs))[dp.inum := n.(ents := n.ents[k := Ent(0, [])])]
    ensures |fs.log.cache.Pinned()| <= |old(fs.log.cache.Pinned())| + 4
  {
    hide Calm, Whole, FreeBare, L.Log.View, Cache.Pinned, FileSystem.Bitmaps, SpaceAt, RoomFor, NoDup, NodeOf,
         EntryCost;
    SpaceThere(fs, dp, k);
    RoomWhile(fs, dp);
    ghost var s0 := fs.Now(dp);
    ClearName(fs, dp, off, k);
    CostBound(fs.g, fs.log.area, fs.Bitmaps(), s0, fs.Now(dp), dp.inum, k);
  }

  // ---- inodes that come and go ------------------------------------------------------------------------------

  lemma ClaimedNode(v: Image, typ: ushort)
    ensures WholeDir(v, Claimed(typ)) && NodeOf(v, Claimed(typ)) == Links.Node(TypOf(typ), 0, [])
  {
  }

  /** ialloc as create uses it: a node of that type without links or entries. */
  method ClaimNode(fs: FileSystem, typ: ushort) returns (inum: nat)
    requires Working(fs) && |fs.log.cache.Pinned()| < L.MAXLOAD && typ != 0
    requires exists x :: 0 < x < |fs.fs.tab| && fs.fs.tab[x].typ == 0
    modifies fs.log, fs.log.cache, fs`fs
    ensures Working(fs) && fs.log.commits == old(fs.log.commits)
    ensures 0 < inum < |old(fs.fs.tab)| && old(fs.fs.tab)[inum].typ == 0
    ensures fs.fs == Files(old(fs.fs.tab)[inum := Claimed(typ)], old(fs.fs.owner))
    ensures Table(fs) == old(Table(fs))[inum := Links.Node(TypOf(typ), 0, [])]
    ensures FilesKept(old(fs.log.View()), old(fs.fs.tab), fs.log.View(), fs.fs.tab, {inum})
    ensures fs.log.cache.Pinned() == old(fs.log.cache.Pinned()) + {fs.log.area.To(fs.g.IBlock(inum))}
  {
    hide Calm, L.Log.View, Cache.Pinned, Whole, WholeDir, OthersSame, NodeOf, Geometry.IBlock;
    ghost var v, tab := fs.log.View(), fs.fs.tab;
    inum := Ialloc(fs, typ);
    ClaimedNode(fs.log.View(), typ);
    OneNode(v, tab, fs.log.View(), fs.fs.tab, inum);
    KeptOthers(v, tab, fs.log.View(), fs.fs.tab, inum);
  }

  /** A new inode with one link. */
  method NewInode(fs: FileSystem, typ: ushort, major: ushort, minor: ushort) returns (ip: Inode)
    requires Working(fs) && |fs.log.cache.Pinned()| < L.MAXLOAD && typ != 0
    requires exists x :: 0 < x < |fs.fs.tab| && fs.fs.tab[x].typ == 0
    modifies fs.log, fs.log.cache, fs`fs
    ensures fresh(ip) && fs.Tied(ip) && Working(fs) && fs.log.commits == old(fs.log.commits)
    ensures 0 < ip.inum < |old(fs.fs.tab)| && old(fs.fs.tab)[ip.inum].typ == 0
    ensures Blank(ip.Fields()) && ip.typ == typ && ip.major == major && ip.minor == minor && ip.nlink == 1
    ensures fs.fs == Files(old(fs.fs.tab)[ip.inum := ip.Fields()], old(fs.fs.owner))
    ensures Table(fs) == old(Table(fs))[ip.inum := Links.Node(TypOf(typ), 1, [])]
    ensures FilesKept(old(fs.log.View()), old(fs.fs.tab), fs.log.View(), fs.fs.tab, {ip.inum})
    ensures fs.log.cache.Pinned() == old(fs.log.cache.Pinned()) + {InodeBlock(fs, ip)}
  {
    hide Calm, L.Log.View, Cache.Pinned, Whole, WholeDir, OthersSame, SameFile, NodeOf, Geometry.IBlock;
    var inum := ClaimNode(fs, typ);
    ip := Ilock(fs, inum);
    ghost var v, tab := fs.log.View(), fs.fs.tab;
    assert fs.log.cache.Pinned() + {InodeBlock(fs, ip)} == fs.log.cache.Pinned();
    UnionSize(old(fs.log.cache.Pinned()), {InodeBlock(fs, ip)});
    WholeAt(v, tab, inum);
    SetMeta(fs, ip, major, minor, 1);
    MetaNode(v, fs.log.View(), tab[inum], ip.Fields());
    OneNode(v, tab, fs.log.View(), fs.fs.tab, inum);
    ClaimedBlank(typ);
    KeptOthers(v, tab, fs.log.View(), fs.fs.tab, inum);
    FilesKeptTrans(old(fs.log.View()), old(fs.fs.tab), v, tab, fs.log.View(), fs.fs.tab, {inum}, {inum});
    assert {inum} + {inum} == {inum};
  }

  /** iput of the last reference to an inode without links. */
  method Release(fs: FileSystem, ip: Inode)
    requires fs.Tied(ip) && ip.nlink == 0 && |fs.Bitmaps()| <= 1
    requires Working(fs) && |fs.log.cache.Pinned()| <= 6 && fs.RoomToFree(ip)
    modifies fs.log, fs.log.cache, fs`fs, ip`addrs, ip`size, ip`typ
    ensures fs.Tied(ip) && Working(fs) && fs.log.commits == old(fs.log.commits)
    ensures Table(fs) == old(Table(fs))[ip.inum := Links.Node(Links.Free, 0, [])]
    ensures ip.Fields() == Emptied(old(ip.Fields())).(typ := 0) && fs.fs.tab == old(fs.fs.tab)[ip.inum := ip.Fields()]
    ensures fs.fs.owner == old(fs.fs.owner - BlocksOf(fs.fs.owner, ip.inum))
    ensures OthersSame(old(fs.log.View()), old(fs.fs.tab), fs.log.View(), fs.fs.tab, ip.inum)
    ensures |fs.log.cache.Pinned()| <= 8
  {
    hide L.Log.View, Cache.Held, Cache.Pinned, FileSystem.Ready, Synced, Whole, OthersSame, FileSystem.Bitmaps,
         Geometry.IBlock, BlocksOf, FileSystem.RoomToFree;
    ghost var v, tab := fs.log.View(), fs.fs.tab;
    fs.FreeInode(ip);
    OneNode(v, tab, fs.log.View(), fs.fs.tab, ip.inum);
    ghost var p, a := old(fs.log.cache.Pinned()), InodeBlock(fs, ip);
    UnionSize(p, fs.Bitmaps());
    UnionSize(p + fs.Bitmaps(), {a});
    SubsetSize(fs.log.cache.Pinned(), p + fs.Bitmaps() + {a});
  }

  lemma PutRight(t: seq<Links.Node>, x: nat)
    requires Links.Inv(t) && Links.RemovedEmpty(t) && 0 < x < |t| && t[x].nlink == 0
    ensures var r := t[x := Links.Node(Links.Free, 0, [])]; Links.Inv(r) && Links.RemovedEmpty(r)
  {
    hide Links.Inv, Links.Empty;
    Links.PutKeeps(t, x);
  }

  /** The same, with the link counts. */
  method ReleaseRight(fs: FileSystem, ip: Inode)
    requires fs.Tied(ip) && 0 < ip.inum && ip.nlink == 0 && |fs.Bitmaps()| <= 1
    requires Working(fs) && |fs.log.cache.Pinned()| <= 6 && fs.RoomToFree(ip)
    modifies fs.log, fs.log.cache, fs`fs, ip`addrs, ip`size, ip`typ
    ensures fs.Tied(ip) && Working(fs) && fs.log.commits == old(fs.log.commits)
    ensures old(Right(fs.log.View(), fs.fs.tab)) ==> Right(fs.log.View(), fs.fs.tab)
    ensures ip.Fields() == Emptied(old(ip.Fields())).(typ := 0) && fs.fs.tab == old(fs.fs.tab)[ip.inum := ip.Fields()]
    ensures fs.fs.owner == old(fs.fs.owner - BlocksOf(fs.fs.owner, ip.inum))
    ensures OthersSame(old(fs.log.View()), old(fs.fs.tab), fs.log.View(), fs.fs.tab, ip.inum)
  {
    hide Calm, Links.Inv, Links.RemovedEmpty, L.Log.View, FileSystem.RoomToFree, OthersSame, Whole, FreeBare,
         FileSystem.Bitmaps, Cache.Pinned, BlocksOf, NodeOf;
    ghost var v, tab, t := fs.log.View(), fs.fs.tab, Table(fs);
    NodeIs(fs, ip);
    Release(fs, ip);
    if Right(v, tab) {
      PutRight(t, ip.inum);
    }
  }

  lemma RoomToRelease(fs: FileSystem, ip: Inode)
    requires |fs.log.cache.Pinned()| <= 6 && InodeBlock(fs, ip) in fs.log.cache.Pinned() && |fs.Bitmaps()| <= 1
    requires |ip.addrs| == NDIRECT + 1 && fs.log.cache.Held() == {}
    ensures fs.RoomToFree(ip)
  {
    hide Cache.Held, Cache.Pinned, FileSystem.Bitmaps, Geometry.IBlock;
    ghost var p, ta := fs.log.cache.Pinned(), fs.log.area.To(ip.addrs[TABLE]);
    UnionSize(p, fs.Bitmaps());
    UnionSize(p + fs.Bitmaps(), {ta});
    SubsetSize(fs.Load() + fs.Bitmaps() + {ta, InodeBlock(fs, ip)}, p + fs.Bitmaps() + {ta});
  }

  lemma RoomAtFirst(fs: FileSystem, ip: Inode)
    requires fs.log.cache.Pinned() == {} && fs.log.cache.Held() == {}
    requires |fs.Bitmaps()| <= 1 && |ip.addrs| == NDIRECT + 1
    ensures fs.RoomToFree(ip)
  {
    hide Cache.Held, Cache.Pinned, FileSystem.Bitmaps, Geometry.IBlock;
    ghost var ta := fs.log.area.To(ip.addrs[TABLE]);
    UnionSize(fs.Bitmaps(), {ta, InodeBlock(fs, ip)});
    SubsetSize(fs.Load() + fs.Bitmaps() + {ta, InodeBlock(fs, ip)}, fs.Bitmaps() + {ta, InodeBlock(fs, ip)});
  }

  // ---- transactions -----------------------------------------------------------------------------------------

  /** Every image committed so far is consistent, with the right link counts. */
  ghost predicate History(fs: FileSystem)
    reads fs.log`commits
  {
    forall k :: 0 <= k < |fs.log.commits| ==> Consistent(fs.g, fs.log.commits[k]) && RightImage(fs.g, fs.log.commits[k])
  }

  /** Between transactions. */
  ghost predicate Idle(fs: FileSystem)
    reads fs, fs.log, fs.log.cache
  {
    !fs.log.busy && Calm(fs) && Right(fs.log.View(), fs.fs.tab)
  }

  method Start(fs: FileSystem)
    requires Idle(fs)
    modifies fs.log`busy
    ensures Working(fs) && fs.log.View() == old(fs.log.View()) && fs.log.cache.Pinned() == {}
  {
    hide L.Log.View, Cache.Held, Cache.Pinned, FileSystem.Ready, Synced, Whole, FreeBare, Links.Inv;
    fs.Begin();
  }

  lemma RightNow(fs: FileSystem)
    requires Calm(fs) && Right(fs.log.View(), fs.fs.tab)
    ensures RightImage(fs.g, fs.log.View()) && Consistent(fs.g, fs.log.View())
  {
    hide L.Log.View, Cache.Held, Cache.Pinned, Synced, Right, L.Log.Valid;
    SyncedTab(fs.g, fs.log.View(), fs.fs.tab);
  }

  /** The last image committed is `v`. */
  ghost predicate LastIs(fs: FileSystem, v: Image)
    reads fs.log`commits
  {
    |fs.log.commits| > 0 && fs.log.commits[|fs.log.commits| - 1] == v
  }

  lemma Committed(fs: FileSystem)
    requires fs.Ready({}) && !fs.log.busy
    ensures LastIs(fs, fs.log.View())
  {
    hide L.Log.View, L.Sound, Inv;
    fs.log.LastCommit();
  }

  /** commit_trans: if the link counts are right now, they are right in every image committed. */
  method Finish(fs: FileSystem)
    requires Working(fs)
    modifies fs.log, fs.log.cache
    ensures Calm(fs) && !fs.log.busy && fs.log.View() == old(fs.log.View()) && LastIs(fs, fs.log.View())
    ensures old(History(fs)) && Right(fs.log.View(), fs.fs.tab) ==> History(fs)
  {
    hide L.Log.View, Cache.Held, Cache.Pinned, FileSystem.Ready, Synced, Whole, FreeBare, Links.Inv, RightImage,
         Consistent, Right;
    ghost var v, tab := fs.log.View(), fs.fs.tab;
    if Right(v, tab) {
      RightNow(fs);
    }
    fs.Commit();
    fs.NothingLogged();
    Committed(fs);
  }
}
