/** link, unlink, create, close and write (sysfile.c, file.c) as transactions on the disk. */
module Sysfile {
  import opened Bytes
  import opened BufferCache
  import opened Layout
  import opened Recovery
  import opened FsImage
  import opened FileBytes
  import opened FileSystem
  import opened Dirs
  import opened DirFiles
  import opened DiskInodes
  import opened DiskLinks
  import opened DiskNodes
  import opened Creation
  import File
  import Links
  import L = Log

  // ---- link -------------------------------------------------------------------------------------------------

  /** The count goes up, and then the name goes into the directory unless it is there. */
  method LinkFound(fs: FileSystem, ip: Inode, dp: Inode, name: Name) returns (r: int)
    requires fs.Tied(ip) && 0 < ip.inum < 0x10000 && ip.typ != T_DIR && ip.nlink < 0xFFFF && NoNul(name)
    requires Working(fs) && fs.log.cache.Pinned() == {} && |fs.Bitmaps()| <= 1
    requires fs.Tied(dp) && dp.typ == T_DIR && NoDup(Table(fs)[dp.inum].ents)
             && SpaceAt(fs, dp, FirstFree(Table(fs)[dp.inum].ents))
    modifies fs.log, fs.log.cache, fs`fs, ip`major, ip`minor, ip`nlink, dp`addrs, dp`size
    ensures fs.Tied(ip) && fs.Tied(dp) && Working(fs) && fs.log.commits == old(fs.log.commits)
    ensures r == if Get(old(Table(fs))[dp.inum].ents, Trunc(name)) == 0 then 0 else -1
    ensures ip.Fields() == old(ip.Fields()).(nlink := old(ip.nlink) + 1)
    ensures FilesKept(old(fs.log.View()), old(fs.fs.tab), fs.log.View(), fs.fs.tab, if r == 0 then {dp.inum} else {})
    ensures r == 0 ==> Table(fs) == Links.AfterLink(old(Table(fs)), ip.inum, dp.inum, Trunc(name))
    ensures r == 0 ==> |fs.log.cache.Pinned()| <= 5
    ensures r == -1 ==>
              && Table(fs) == Links.Bump(old(Table(fs)), ip.inum, 1) && fs.log.cache.Pinned() == {InodeBlock(fs, ip)}
              && fs.fs == Files(old(fs.fs.tab)[ip.inum := ip.Fields()], old(fs.fs.owner))
  {
    hide Calm, Whole, FreeBare, L.Log.View, Cache.Pinned, FileSystem.Bitmaps, BlocksNeeded, Get, NoDup, FirstFree, Add,
         NodeOf, InodeBlock, FilesKept;
    NodeIs(fs, ip);
    ghost var v, tab := fs.log.View(), fs.fs.tab;
    SetLinks(fs, ip, ip.nlink + 1);
    ghost var v1, tab1 := fs.log.View(), fs.fs.tab;
    r := AddFirst(fs, dp, name, ip.inum);
    if r == 0 {
      FilesKeptTrans(v, tab, v1, tab1, fs.log.View(), fs.fs.tab, {}, {dp.inum});
      assert {} + {dp.inum} == {dp.inum};
    }
  }

  /** The way out of a link that failed: the count goes back to what it was. */
  method LowerAgain(fs: FileSystem, ip: Inode, ghost t: seq<Links.Node>, ghost was: Files)
    requires ip.inum < |was.tab| && was.tab[ip.inum] == ip.Fields().(nlink := was.tab[ip.inum].nlink)
    requires ip.nlink == was.tab[ip.inum].nlink + 1 && fs.Tied(ip)
    requires Working(fs) && fs.log.cache.Pinned() == {InodeBlock(fs, ip)}
    requires ip.inum < |t| && Table(fs) == Links.Bump(t, ip.inum, 1)
    requires fs.fs == Files(was.tab[ip.inum := ip.Fields()], was.owner)
    modifies fs.log, fs.log.cache, fs`fs, ip`major, ip`minor, ip`nlink
    ensures fs.Tied(ip) && Working(fs) && fs.log.commits == old(fs.log.commits)
    ensures Table(fs) == t && fs.fs == was && ip.Fields() == was.tab[ip.inum]
    ensures FilesKept(old(fs.log.View()), old(fs.fs.tab), fs.log.View(), fs.fs.tab, {}) && |fs.log.cache.Pinned()| <= 5
  {
    hide Calm, Whole, FreeBare, L.Log.View, Cache.Pinned, NodeOf, InodeBlock, FilesKept;
    NodeIs(fs, ip);
    SetLinks(fs, ip, ip.nlink - 1);
  }

  /** sys_link within its transaction, once `ip` is known to be no directory; `found` says whether nameiparent found the
      directory `dp`. */
  method LinkInode(fs: FileSystem, ip: Inode, found: bool, dp: Inode, name: Name) returns (r: int)
    requires fs.Tied(ip) && 0 < ip.inum < 0x10000 && ip.typ != T_DIR && ip.nlink < 0xFFFF && NoNul(name)
    requires Working(fs) && fs.log.cache.Pinned() == {} && |fs.Bitmaps()| <= 1
    requires found ==> fs.Tied(dp) && dp.typ == T_DIR && NoDup(Table(fs)[dp.inum].ents)
                       && SpaceAt(fs, dp, FirstFree(Table(fs)[dp.inum].ents))
    modifies fs.log, fs.log.cache, fs`fs, ip`major, ip`minor, ip`nlink, dp`addrs, dp`size
    ensures fs.Tied(ip) && (found ==> fs.Tied(dp)) && Working(fs) && fs.log.commits == old(fs.log.commits)
    ensures r == if found && Get(old(Table(fs))[dp.inum].ents, Trunc(name)) == 0 then 0 else -1
    ensures r == -1 ==> Table(fs) == old(Table(fs)) && fs.fs == old(fs.fs)
    ensures r == 0 ==> Table(fs) == Links.AfterLink(old(Table(fs)), ip.inum, dp.inum, Trunc(name))
    ensures ip.Fields() == old(ip.Fields()).(nlink := ip.nlink)
    ensures FilesKept(old(fs.log.View()), old(fs.fs.tab), fs.log.View(), fs.fs.tab, if r == 0 then {dp.inum} else {})
    ensures |fs.log.cache.Pinned()| <= 5
  {
    hide Calm, Whole, FreeBare, L.Log.View, Cache.Pinned, FileSystem.Bitmaps, BlocksNeeded, Get, NoDup, FirstFree, Add,
         NodeOf, InodeBlock, FilesKept;
    if found {
      r := LinkFound(fs, ip, dp, name);
      if r == 0 {
        return 0;
      }
    } else {
      NodeIs(fs, ip);
      SetLinks(fs, ip, ip.nlink + 1);
    }
    ghost var v1, tab1 := fs.log.View(), fs.fs.tab;
    LowerAgain(fs, ip, old(Table(fs)), old(fs.fs));
    FilesKeptTrans(old(fs.log.View()), old(fs.fs.tab), v1, tab1, fs.log.View(), fs.fs.tab, {}, {});
    return -1;
  }

  /** What the disk must offer a new entry of `dp`. */
  ghost predicate Offers(fs: FileSystem, dp: Inode)
    reads fs, fs.log, fs.log.cache, dp
  {
    && fs.Tied(dp) && 0 < dp.inum && dp.typ == T_DIR && Whole(fs.log.View(), fs.fs.tab)
    && SpaceAt(fs, dp, FirstFree(Table(fs)[dp.inum].ents))
  }

  /** sys_link: a failed link changes no node; otherwise the name is there and the link count one higher. The counts on
      disk stay right exactly if the directory still has links itself. */
  method Link(fs: FileSystem, ip: Inode, found: bool, dp: Inode, name: Name) returns (r: int)
    requires Idle(fs) && fs.g.size <= BPB && fs.g.ninodes <= 0x10000 && NoNul(name)
    requires fs.Tied(ip) && 0 < ip.inum && ip.typ != 0 && ip.nlink < 0xFFFF && (found ==> Offers(fs, dp))
    modifies fs.log, fs.log.cache, fs`fs, ip`major, ip`minor, ip`nlink, dp`addrs, dp`size
    ensures Calm(fs) && !fs.log.busy && Whole(fs.log.View(), fs.fs.tab) && fs.Tied(ip) && (found ==> fs.Tied(dp))
    ensures r == if ip.typ != T_DIR && found && Get(old(Table(fs))[dp.inum].ents, Trunc(name)) == 0 then 0 else -1
    ensures Table(fs) ==
            if r == 0 then Links.AfterLink(old(Table(fs)), ip.inum, dp.inum, Trunc(name)) else old(Table(fs))
    ensures ip.Fields() == old(ip.Fields()).(nlink := ip.nlink) && LastIs(fs, fs.log.View())
    ensures FilesKept(old(fs.log.View()), old(fs.fs.tab), fs.log.View(), fs.fs.tab, if r == 0 then {dp.inum} else {})
    ensures Right(fs.log.View(), fs.fs.tab) <==> r == -1 || dp.nlink > 0
    ensures old(History(fs)) && (r == -1 || dp.nlink > 0) ==> History(fs)
  {
    hide Calm, Whole, FreeBare, L.Log.View, Cache.Pinned, FileSystem.Bitmaps, BlocksNeeded, Get, Find, NoDup, FirstFree,
         NodeOf, Links.Inv, Links.RemovedEmpty, SpaceAt, History, FilesKept;
    ghost var t := Table(fs);
    CalmFacts(fs);
    NodeIs(fs, ip);
    File.OneBitmapBlock(fs);
    if found {
      NodeIs(fs, dp);
      Links.NoDups(t, dp.inum);
    }
    Start(fs);
    if ip.typ == T_DIR {
      KeptRefl(fs.log.View(), fs.fs.tab);
      Finish(fs);
      return -1;
    }
    r := LinkInode(fs, ip, found, dp, name);
    if r == 0 {
      Links.LinkKeeps(t, ip.inum, dp.inum, Trunc(name));
      if dp.nlink > 0 {
        Links.LinkRemoved(t, ip.inum, dp.inum, Trunc(name));
      }
    }
    Finish(fs);
  }

  // ---- unlink -----------------------------------------------------------------------------------------------

  /** The conditions under which sys_unlink goes ahead. */
  ghost predicate Removable(t: seq<Links.Node>, dp: nat, name: Name)
    requires dp < |t|
  {
    var x := Get(t[dp].ents, name);
    && name != Links.DOT && name != Links.DOTDOT && 0 < x < |t|
    && (t[x].typ == Links.Dir ==> Links.Empty(t[x].ents))
  }

  /** One link fewer for `ip` and, if it is a directory, for its parent. */
  method LowerLinks(fs: FileSystem, dp: Inode, ip: Inode)
    requires fs.Tied(dp) && fs.Tied(ip) && dp.inum != ip.inum && ip.nlink >= 1 && (ip.typ == T_DIR ==> dp.nlink >= 1)
    requires Working(fs) && |fs.log.cache.Pinned()| <= 4
    modifies fs.log, fs.log.cache, fs`fs, dp`major, dp`minor, dp`nlink, ip`major, ip`minor, ip`nlink
    ensures fs.Tied(dp) && fs.Tied(ip) && Working(fs) && fs.log.commits == old(fs.log.commits)
    ensures ip.nlink == old(ip.nlink) - 1 && dp.nlink == old(dp.nlink) - if ip.typ == T_DIR then 1 else 0
    ensures dp.major == old(dp.major) && dp.minor == old(dp.minor)
    ensures FilesKept(old(fs.log.View()), old(fs.fs.tab), fs.log.View(), fs.fs.tab, {})
    ensures Table(fs) == Links.Bump(Links.Bump(old(Table(fs)), dp.inum, if ip.typ == T_DIR then -1 else 0), ip.inum, -1)
    ensures |fs.log.cache.Pinned()| <= 6 && InodeBlock(fs, ip) in fs.log.cache.Pinned()
  {
    hide Calm, Whole, FreeBare, L.Log.View, Cache.Pinned, NodeOf, InodeBlock, FilesKept;
    NodeIs(fs, ip);
    NodeIs(fs, dp);
    ghost var v, tab := fs.log.View(), fs.fs.tab;
    KeptRefl(v, tab);
    UnionSize(fs.log.cache.Pinned(), {InodeBlock(fs, dp)});
    if ip.typ == T_DIR {
      SetLinks(fs, dp, dp.nlink - 1);
    }
    ghost var v1, tab1 := fs.log.View(), fs.fs.tab;
    UnionSize(fs.log.cache.Pinned(), {InodeBlock(fs, ip)});
    SetLinks(fs, ip, ip.nlink - 1);
    FilesKeptTrans(v, tab, v1, tab1, fs.log.View(), fs.fs.tab, {}, {});
  }

  /** sys_unlink once it is known what goes: entry `k` of `dp`, which names `ip`. */
  method DropLink(fs: FileSystem, dp: Inode, ip: Inode, off: uint, ghost k: nat)
    requires fs.Tied(dp) && fs.Tied(ip) && dp.inum != ip.inum && dp.typ == T_DIR && off == DESIZE * k
    requires ip.nlink >= 1 && (ip.typ == T_DIR ==> dp.nlink >= 1)
    requires Working(fs) && fs.log.cache.Pinned() == {} && |fs.Bitmaps()| <= 1 && NoDup(Table(fs)[dp.inum].ents)
    requires k < |Table(fs)[dp.inum].ents| && Table(fs)[dp.inum].ents[k].inum == ip.inum != 0
    modifies fs.log, fs.log.cache, fs`fs, dp`addrs, dp`size, dp`major, dp`minor, dp`nlink, ip`major, ip`minor, ip`nlink
    ensures fs.Tied(dp) && fs.Tied(ip) && Working(fs) && fs.log.commits == old(fs.log.commits)
    ensures ip.nlink == old(ip.nlink) - 1 && dp.nlink == old(dp.nlink) - if ip.typ == T_DIR then 1 else 0
    ensures dp.major == old(dp.major) && dp.minor == old(dp.minor)
    ensures FilesKept(old(fs.log.View()), old(fs.fs.tab), fs.log.View(), fs.fs.tab, {dp.inum})
    ensures Table(fs) == Links.AfterUnlink(old(Table(fs)), dp.inum, k)
    ensures |fs.log.cache.Pinned()| <= 6 && InodeBlock(fs, ip) in fs.log.cache.Pinned()
  {
    hide Calm, Whole, FreeBare, L.Log.View, Cache.Pinned, FileSystem.Bitmaps, SpaceAt, RoomFor, Get, NoDup, NodeOf,
         EntryCost, InodeBlock, FilesKept;
    NodeIs(fs, ip);
    NodeIs(fs, dp);
    ClearFirst(fs, dp, off, k);
    ghost var v1, tab1 := fs.log.View(), fs.fs.tab;
    LowerLinks(fs, dp, ip);
    FilesKeptTrans(old(fs.log.View()), old(fs.fs.tab), v1, tab1, fs.log.View(), fs.fs.tab, {dp.inum}, {});
    assert {dp.inum} + {} == {dp.inum};
  }

  /** sys_unlink within its transaction, up to the release of the inode that lost a link. What a name names has a link,
      so the panic cannot happen. */
  method UnlinkInode(fs: FileSystem, dp: Inode, name: Name) returns (r: int, ip: Inode)
    requires fs.Tied(dp) && 0 < dp.inum && dp.typ == T_DIR && NoNul(name)
    requires Working(fs) && fs.log.cache.Pinned() == {} && |fs.Bitmaps()| <= 1
    requires Links.Inv(Table(fs)) && Links.RemovedEmpty(Table(fs))
    modifies fs.log, fs.log.cache, fs`fs, dp`addrs, dp`size, dp`major, dp`minor, dp`nlink
    ensures fs.Tied(dp) && Working(fs) && fs.log.commits == old(fs.log.commits)
    ensures r == if Removable(old(Table(fs)), dp.inum, Trunc(name)) then 0 else -1
    ensures r == -1 ==> Table(fs) == old(Table(fs)) && dp.Fields() == old(dp.Fields())
    ensures dp.major == old(dp.major) && dp.minor == old(dp.minor)
    ensures FilesKept(old(fs.log.View()), old(fs.fs.tab), fs.log.View(), fs.fs.tab, if r == 0 then {dp.inum} else {})
    ensures r == 0 ==> var k := Find(old(Table(fs))[dp.inum].ents, Trunc(name));
              && Links.CanUnlink(old(Table(fs)), dp.inum, k) && Links.Linked(old(Table(fs))[dp.inum])
              && Table(fs) == Links.AfterUnlink(old(Table(fs)), dp.inum, k)
              && fresh(ip) && fs.Tied(ip) && ip.inum == old(Table(fs))[dp.inum].ents[k].inum != dp.inum
              && |fs.log.cache.Pinned()| <= 6 && InodeBlock(fs, ip) in fs.log.cache.Pinned()
  {
    hide Calm, Whole, FreeBare, L.Log.View, Cache.Pinned, FileSystem.Bitmaps, Get, Find, NoDup, NodeOf, InodeBlock,
         Links.Inv, Links.RemovedEmpty, Links.Empty, Links.CanUnlink, Links.AfterUnlink, FilesKept;
    ghost var t := Table(fs);
    NodeIs(fs, dp);
    KeptRefl(fs.log.View(), fs.fs.tab);
    ip := dp;
    if Trunc(name) == Links.DOT || Trunc(name) == Links.DOTDOT {
      return -1, ip;
    }
    var inum, off := FindName(fs, dp, name);
    if inum == 0 {
      return -1, ip;
    }
    Links.NamedOther(t, dp.inum, name);
    Links.NoDups(t, dp.inum);
    ip := Ilock(fs, inum);
    NodeIs(fs, ip);
    var names := HasNames(fs, ip);
    if names {
      return -1, ip;
    }
    DropLink(fs, dp, ip, off, Find(t[dp.inum].ents, Trunc(name)));
    return 0, ip;
  }

  /** What sys_unlink leaves: the entry is gone and, if nobody else refers to the inode and that was its last link, so
      is the inode. */
  ghost function AfterRemove(t: seq<Links.Node>, dp: nat, k: nat, last: bool): (r: seq<Links.Node>)
    requires dp < |t| && k < |t[dp].ents| && 0 <= t[dp].ents[k].inum < |t|
  {
    var u, x := Links.AfterUnlink(t, dp, k), t[dp].ents[k].inum;
    if last && u[x].nlink == 0 then u[x := Links.Node(Links.Free, 0, [])] else u
  }

  /** The inode that goes. */
  ghost function Freed(t: seq<Links.Node>, dp: nat, k: nat, last: bool): (s: set<int>)
    requires dp < |t| && k < |t[dp].ents| && 0 <= t[dp].ents[k].inum < |t|
  {
    var x := t[dp].ents[k].inum;
    if last && Links.AfterUnlink(t, dp, k)[x].nlink == 0 then {x} else {}
  }

  lemma RemoveKeeps(t: seq<Links.Node>, dp: nat, k: nat, last: bool)
    requires Links.CanUnlink(t, dp, k) && Links.Linked(t[dp]) && Links.RemovedEmpty(t)
    ensures Links.Inv(AfterRemove(t, dp, k, last)) && Links.RemovedEmpty(AfterRemove(t, dp, k, last))
  {
    hide Links.Inv, Links.RemovedEmpty;
    Links.UnlinkKeeps(t, dp, k);
    Links.UnlinkRemoved(t, dp, k);
    var u, x := Links.AfterUnlink(t, dp, k), t[dp].ents[k].inum;
    if last && u[x].nlink == 0 {
      PutRight(u, x);
    }
  }

  /** sys_unlink within its transaction; `last` says that no other reference to the inode is left. */
  method Remove(fs: FileSystem, dp: Inode, name: Name, last: bool) returns (r: int)
    requires fs.Tied(dp) && 0 < dp.inum && dp.typ == T_DIR && NoNul(name)
    requires Working(fs) && fs.log.cache.Pinned() == {} && |fs.Bitmaps()| <= 1
    requires Links.Inv(Table(fs)) && Links.RemovedEmpty(Table(fs))
    modifies fs.log, fs.log.cache, fs`fs, dp`addrs, dp`size, dp`major, dp`minor, dp`nlink
    ensures fs.Tied(dp) && Working(fs) && fs.log.commits == old(fs.log.commits)
    ensures r == if Removable(old(Table(fs)), dp.inum, Trunc(name)) then 0 else -1
    ensures r == -1 ==> Table(fs) == old(Table(fs)) && dp.Fields() == old(dp.Fields())
    ensures dp.major == old(dp.major) && dp.minor == old(dp.minor)
    ensures r == -1 ==> FilesKept(old(fs.log.View()), old(fs.fs.tab), fs.log.View(), fs.fs.tab, {})
    ensures r == 0 ==> var k := Find(old(Table(fs))[dp.inum].ents, Trunc(name));
              && Links.CanUnlink(old(Table(fs)), dp.inum, k) && Links.Linked(old(Table(fs))[dp.inum])
              && Table(fs) == AfterRemove(old(Table(fs)), dp.inum, k, last)
              && FilesKept(old(fs.log.View()), old(fs.fs.tab), fs.log.View(), fs.fs.tab,
                           {dp.inum} + Freed(old(Table(fs)), dp.inum, k, last))
    ensures r == 0 ==> |fs.log.cache.Pinned()| <= 8
  {
    hide Calm, Whole, FreeBare, L.Log.View, Cache.Pinned, FileSystem.Bitmaps, Get, Find, NoDup, NodeOf, InodeBlock,
         Links.Inv, Links.RemovedEmpty, Links.Empty, Removable, Cache.Held, FileSystem.RoomToFree, BlocksOf, FilesKept;
    var ip;
    r, ip := UnlinkInode(fs, dp, name);
    if r == 0 {
      NodeIs(fs, ip);
      assert {dp.inum} + {} == {dp.inum};
      if last && ip.nlink == 0 {
        NoneHeld(fs);
        RoomToRelease(fs, ip);
        ghost var v1, tab1 := fs.log.View(), fs.fs.tab;
        Release(fs, ip);
        KeptOthers(v1, tab1, fs.log.View(), fs.fs.tab, ip.inum);
        FilesKeptTrans(old(fs.log.View()), old(fs.fs.tab), v1, tab1, fs.log.View(), fs.fs.tab, {dp.inum}, {ip.inum});
      }
    }
  }

  /** sys_unlink: a failed call changes no node; otherwise one entry goes, with its inode if that was the last link and
      the last reference. The link counts on disk stay right in either case. */
  method Unlink(fs: FileSystem, dp: Inode, name: Name, last: bool) returns (r: int)
    requires Idle(fs) && fs.g.size <= BPB && NoNul(name) && fs.Tied(dp) && 0 < dp.inum && dp.typ == T_DIR
    modifies fs.log, fs.log.cache, fs`fs, dp`addrs, dp`size, dp`major, dp`minor, dp`nlink
    ensures Idle(fs) && fs.Tied(dp) && (old(History(fs)) ==> History(fs))
    ensures r == if Removable(old(Table(fs)), dp.inum, Trunc(name)) then 0 else -1
    ensures dp.major == old(dp.major) && dp.minor == old(dp.minor) && LastIs(fs, fs.log.View())
    ensures r == -1 ==> Table(fs) == old(Table(fs))
    ensures r == -1 ==> FilesKept(old(fs.log.View()), old(fs.fs.tab), fs.log.View(), fs.fs.tab, {})
    ensures r == 0 ==> var k := Find(old(Table(fs))[dp.inum].ents, Trunc(name));
              && k < |old(Table(fs))[dp.inum].ents| && Table(fs) == AfterRemove(old(Table(fs)), dp.inum, k, last)
              && FilesKept(old(fs.log.View()), old(fs.fs.tab), fs.log.View(), fs.fs.tab,
                           {dp.inum} + Freed(old(Table(fs)), dp.inum, k, last))
  {
    hide Calm, Whole, FreeBare, L.Log.View, Cache.Pinned, FileSystem.Bitmaps, Get, Find, NoDup, NodeOf, InodeBlock,
         Links.Inv, Links.RemovedEmpty, Links.Empty, Removable, History, AfterRemove, FilesKept;
    ghost var t := Table(fs);
    File.OneBitmapBlock(fs);
    Start(fs);
    r := Remove(fs, dp, name, last);
    if r == 0 {
      RemoveKeeps(t, dp.inum, Find(t[dp.inum].ents, Trunc(name)), last);
    }
    Finish(fs);
  }

  // ---- create -----------------------------------------------------------------------------------------------

  /** The transaction of open with O_CREATE, mkdir and mknod: an existing name changes no node; a new one appears with
      its inode, and the counts on disk stay right exactly if the directory still has links itself. */
  method Create(fs: FileSystem, dp: Inode, name: Name, typ: ushort, major: ushort, minor: ushort)
    returns (ok: bool, ip: Inode)
    requires Idle(fs) && fs.g.size <= BPB && fs.g.ninodes <= 0x10000 && CanMake(fs, dp, name, typ)
    modifies fs.log, fs.log.cache, fs`fs, dp`addrs, dp`size, dp`major, dp`minor, dp`nlink
    ensures Calm(fs) && !fs.log.busy && Whole(fs.log.View(), fs.fs.tab) && fs.Tied(dp) && fs.Tied(ip) && fresh(ip)
    ensures var y := Get(old(Table(fs))[dp.inum].ents, Trunc(name));
            if y != 0 then
              && Table(fs) == old(Table(fs)) && ip.inum == y && (ok <==> typ == T_FILE && ip.typ == T_FILE)
              && fs.fs == old(fs.fs) && fs.log.View() == old(fs.log.View())
            else
              && IsNew(ip, typ, major, minor)
              && FilesKept(old(fs.log.View()), old(fs.fs.tab), fs.log.View(), fs.fs.tab, {ip.inum, dp.inum})
              && (typ != T_DIR ==> NoBytes(fs.log.View(), ip.Fields()))
              && ok && 0 < ip.inum < |old(Table(fs))| && old(Table(fs))[ip.inum].typ == Links.Free
              && Table(fs) == AfterNew(old(Table(fs)), ip.inum, dp.inum, Trunc(name), typ)
    ensures dp.major == old(dp.major) && dp.minor == old(dp.minor) && LastIs(fs, fs.log.View())
    ensures OnDisk(fs.g, fs.log.View(), ip.inum) == ip.Fields()
    ensures var y := Get(old(Table(fs))[dp.inum].ents, Trunc(name));
            && (Right(fs.log.View(), fs.fs.tab) <==> y != 0 || old(dp.nlink) > 0)
            && (old(History(fs)) && (y != 0 || old(dp.nlink) > 0) ==> History(fs))
  {
    hide Calm, Whole, FreeBare, L.Log.View, Cache.Pinned, FileSystem.Bitmaps, NodeOf, NoDup, Get, Find, FirstFree, Add,
         AfterNew, SpaceToCreate, Links.Inv, Links.RemovedEmpty, History, FilesKept, Blank, NoBytes;
    ghost var t := Table(fs);
    CalmFacts(fs);
    NodeIs(fs, dp);
    File.OneBitmapBlock(fs);
    Start(fs);
    ok, ip := CreateInode(fs, dp, name, typ, major, minor);
    if Get(t[dp.inum].ents, Trunc(name)) == 0 {
      NewKeeps(t, ip.inum, dp.inum, Trunc(name), typ);
    }
    Finish(fs);
    OnDiskNow(fs, ip);
  }

  lemma OnDiskNow(fs: FileSystem, ip: Inode)
    requires Calm(fs) && fs.Tied(ip)
    ensures OnDisk(fs.g, fs.log.View(), ip.inum) == ip.Fields()
  {
    hide L.Log.View, Cache.Held, Cache.Pinned, FileSystem.Ready, GetDinode;
  }

  // ---- the other transactions -------------------------------------------------------------------------------

  /** fileclose's transaction around the last iput. */
  method Close(fs: FileSystem, ip: Inode)
    requires Idle(fs) && fs.g.size <= BPB && fs.Tied(ip) && 0 < ip.inum
    modifies fs.log, fs.log.cache, fs`fs, ip`addrs, ip`size, ip`typ
    ensures Idle(fs) && fs.Tied(ip) && (old(History(fs)) ==> History(fs)) && LastIs(fs, fs.log.View())
    ensures FilesKept(old(fs.log.View()), old(fs.fs.tab), fs.log.View(), fs.fs.tab,
                      if ip.nlink == 0 then {ip.inum} else {})
    ensures ip.nlink != 0 ==> ip.Fields() == old(ip.Fields())
    ensures Table(fs) ==
            if ip.nlink == 0 then old(Table(fs))[ip.inum := Links.Node(Links.Free, 0, [])] else old(Table(fs))
  {
    hide Calm, Links.Inv, Links.RemovedEmpty, L.Log.View, FileSystem.RoomToFree, OthersSame, Whole, FreeBare,
         FileSystem.Bitmaps, Cache.Pinned, Cache.Held, BlocksOf, NodeOf, History, FilesKept;
    ghost var v, tab, t := fs.log.View(), fs.fs.tab, Table(fs);
    KeptRefl(v, tab);
    NodeIs(fs, ip);
    File.OneBitmapBlock(fs);
    Start(fs);
    if ip.nlink == 0 {
      PutRight(t, ip.inum);
      NoneHeld(fs);
      RoomAtFirst(fs, ip);
      Release(fs, ip);
      KeptOthers(v, tab, fs.log.View(), fs.fs.tab, ip.inum);
    }
    Finish(fs);
  }

  /** Writing to a file changes no node. */
  lemma WriteRight(v: Image, tab: seq<Dinode>, v': Image, tab': seq<Dinode>, i: nat)
    requires Right(v, tab) && OthersSame(v, tab, v', tab', i) && i < |tab| && |tab'[i].addrs| == NDIRECT + 1
    requires tab[i].typ != 0 && tab[i].typ != T_DIR && tab'[i] == tab[i].(size := tab'[i].size, addrs := tab'[i].addrs)
    ensures Right(v', tab') && Nodes(v', tab') == Nodes(v, tab)
  {
    hide Whole, OthersSame, Links.Inv, Links.RemovedEmpty, Content, Entries, Filled;
    WholeAt(v, tab, i);
    OneNode(v, tab, v', tab', i);
    OthersTab(v, tab, v', tab', i);
    assert NodeOf(v', tab'[i]) == NodeOf(v, tab[i]);
    assert Nodes(v', tab') == Nodes(v, tab);
  }

  lemma QuietCalm(f: File.OpenFile)
    requires f.Quiet()
    ensures Calm(f.fs) && f.fs.Tied(f.ip) && !f.fs.log.busy
  {
    hide L.Log.View, Cache.Held, Cache.Pinned, FileSystem.Ready, Synced, Filled, FileSystem.Committed;
    f.fs.NothingLogged();
  }

  /** A transaction of filewrite on a file keeps the counts right on disk. */
  method WriteChunk(f: File.OpenFile, src: seq<byte>, ghost end: nat) returns (r: int)
    requires f.Quiet() && |src| <= File.CHUNK && f.fs.g.size <= BPB && f.Sized() && f.Space(end)
    requires f.off <= f.ip.size && f.off + |src| <= MAXBYTES ==> f.off + |src| <= end
    requires f.ip.typ == T_FILE && Right(f.fs.log.View(), f.fs.fs.tab)
    modifies f.fs.log, f.fs.log.cache, f.fs`fs, f.ip`addrs, f.ip`size, f`off
    ensures f.Quiet() && Right(f.fs.log.View(), f.fs.fs.tab) && Table(f.fs) == old(Table(f.fs))
    ensures old(History(f.fs)) ==> History(f.fs)
  {
    hide Calm, Links.Inv, Links.RemovedEmpty, L.Log.View, OthersSame, Whole, FreeBare, NodeOf, RightImage, Consistent,
         Synced, Right, File.OpenFile.Quiet, File.OpenFile.Bytes, File.OpenFile.Space, Splice;
    ghost var v, tab := f.fs.log.View(), f.fs.fs.tab;
    QuietCalm(f);
    r := f.WriteTrans(src, end);
    QuietCalm(f);
    WriteRight(v, tab, f.fs.log.View(), f.fs.fs.tab, f.ip.inum);
    RightNow(f.fs);
  }

  // ---- crashes ----------------------------------------------------------------------------------------------

  /** Whatever disk a crash and any number of interrupted recoveries lead to, the link counts in its inode blocks are
      the numbers of entries in its directories, if that holds of every commit. */
  lemma CrashedRight(g: Geometry, log: Area, trace: seq<Disk>, commits: seq<Image>, epoch: seq<nat>, k: nat,
                     ds: seq<Disk>)
    requires L.Durable(log, trace, commits, epoch) && k < |trace| && CrashChain(log, ds) && ds[0] == trace[k]
    requires forall c :: 0 <= c < |commits| ==> Consistent(g, commits[c]) && RightImage(g, commits[c])
    ensures var last := ds[|ds| - 1];
            var v := Homes(log, RecoveryDisk(log, last, |HeaderSectors(last[log.Head()])| + 1));
            Consistent(g, v) && RightImage(g, v)
  {
    hide Consistent, RightImage, Homes, RecoveryDisk, HeaderSectors, CutOff;
    L.CrashAnywhere(log, trace, commits, epoch, k, ds);
  }

  lemma FirstCommit(log: L.Log)
    requires log.Valid() && !log.busy && log.pending == {} && |log.commits| == 1
    ensures log.commits[0] == log.View()
  {
    hide L.Log.View, L.Sound;
    log.LastCommit();
  }

  lemma RightMeans(g: Geometry, v: Image)
    requires RightImage(g, v)
    ensures Right(v, DiskTab(g, v))
  {
  }

  /** Mounting such a disk. */
  method Mount(log: L.Log, g: Geometry) returns (fs: FileSystem)
    requires log.Valid() && !log.busy && log.pending == {} && log.cache.Held() == {} && |log.commits| == 1
    requires log.area.start == g.start && log.area.size >= LOGSIZE
    requires Consistent(g, log.commits[0]) && RightImage(g, log.commits[0])
    ensures fresh(fs) && fs.log == log && fs.g == g && Idle(fs) && History(fs)
  {
    hide RightImage, Right, L.Log.View, Cache.Held, Cache.Pinned, Inv, Synced;
    FirstCommit(log);
    ghost var tab, owner :| Inv(g, log.View(), tab, owner, {}) && Synced(g, log.View(), tab, -1);
    fs := new FileSystem(log, g, Files(tab, owner));
    fs.NothingLogged();
    CalmFacts(fs);
    SyncedTab(g, log.View(), tab);
    RightMeans(g, log.View());
  }
}
