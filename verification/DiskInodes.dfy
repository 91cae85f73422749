/** Inodes on disk (fs.c): reading one in ilock, claiming a free one in ialloc, and storing changed fields. */
module DiskInodes {
  import opened Bytes
  import opened BufferCache
  import opened Layout
  import opened Recovery
  import opened FsImage
  import opened FileSystem
  import L = Log

  /** Between calls: no buffer is held, and the inodes on disk are the current ones. */
  ghost predicate Calm(fs: FileSystem)
    reads fs, fs.log, fs.log.cache
  {
    && fs.log.cache.Held() == {} && |fs.log.cache.Pinned()| < NBUF
    && fs.Ready({}) && Synced(fs.g, fs.log.View(), fs.fs.tab, -1)
  }

  /** ilock's bread: the block of an inode. */
  method ReadInodeBlock(fs: FileSystem, inum: nat) returns (b: block)
    requires Calm(fs) && inum < |fs.fs.tab|
    modifies fs.log.cache
    ensures Calm(fs) && fs.log.View() == old(fs.log.View()) && fs.log.cache.Pinned() == old(fs.log.cache.Pinned())
    ensures GetDinode(b, inum % IPB) == fs.fs.tab[inum]
  {
    hide L.Log.Valid, L.Log.View, Cache.Held, Cache.Pinned, Inv, GetDinode, Geometry.IBlock;
    InvInode(fs.g, fs.log.View(), fs.fs.tab, fs.fs.owner, inum);
    ghost var a := fs.log.area.To(fs.g.IBlock(inum));
    UnionSize(fs.log.cache.Pinned(), {a});
    assert fs.log.cache.Held() + fs.log.cache.Pinned() + {a} == fs.log.cache.Pinned() + {a};
    b := fs.log.ReadBlock(fs.g.IBlock(inum));
    assert OnDisk(fs.g, fs.log.View(), inum) == fs.fs.tab[inum];
  }

  /** ilock: the copy in memory is that of the disk. */
  method Ilock(fs: FileSystem, inum: nat) returns (ip: Inode)
    requires Calm(fs) && inum < |fs.fs.tab|
    modifies fs.log.cache
    ensures Calm(fs) && fs.log.View() == old(fs.log.View()) && fs.log.cache.Pinned() == old(fs.log.cache.Pinned())
    ensures fresh(ip) && ip.inum == inum && fs.Tied(ip)
  {
    hide Calm, L.Log.View, Cache.Pinned, GetDinode;
    var b := ReadInodeBlock(fs, inum);
    var d := GetDinode(b, inum % IPB);
    ip := new Inode(inum);
    ip.typ, ip.major, ip.minor, ip.nlink, ip.size, ip.addrs := d.typ, d.major, d.minor, d.nlink, d.size, d.addrs;
  }

  /** New device numbers and a new link count go to the inode and to the disk. */
  method SetMeta(fs: FileSystem, ip: Inode, major: ushort, minor: ushort, nlink: ushort)
    requires fs.Tied(ip) && fs.log.busy && Calm(fs)
    requires |fs.log.cache.Pinned() + {fs.log.area.To(fs.g.IBlock(ip.inum))}| <= L.MAXLOAD
    modifies fs.log, fs.log.cache, fs`fs, ip`major, ip`minor, ip`nlink
    ensures fs.Tied(ip) && fs.log.busy && Calm(fs) && fs.log.commits == old(fs.log.commits)
    ensures ip.major == major && ip.minor == minor && ip.nlink == nlink
    ensures fs.fs == Files(old(fs.fs.tab)[ip.inum := ip.Fields()], old(fs.fs.owner))
    ensures SameFile(old(fs.log.View()), fs.log.View(), ip.Fields())
    ensures OthersSame(old(fs.log.View()), old(fs.fs.tab), fs.log.View(), fs.fs.tab, ip.inum)
    ensures fs.log.cache.Pinned() == old(fs.log.cache.Pinned()) + {fs.log.area.To(fs.g.IBlock(ip.inum))}
  {
    hide L.Log.Valid, L.Log.View, Cache.Held, Cache.Pinned, Inv, At, OthersSame, Synced, UpdateImage, SameFile,
         Geometry.IBlock;
    ghost var v, tab := fs.log.View(), fs.fs.tab;
    ip.major, ip.minor, ip.nlink := major, minor, nlink;
    ghost var d := ip.Fields();
    InvResize(fs.g, v, tab, fs.fs.owner, ip.inum, d);
    fs.fs := Files(tab[ip.inum := d], fs.fs.owner);
    assert fs.Load() == fs.log.cache.Pinned();
    fs.Iupdate(ip);
    SyncedBut(fs.g, v, tab, ip.inum);
    SyncedResize(fs.g, v, tab, ip.inum, d);
    SyncedUpdate(fs.g, v, fs.fs.tab, ip.inum);
    OthersSameRefl(v, tab, ip.inum);
    ResizeOthers(v, tab, v, tab, fs.log.View(), fs.fs.tab, ip.inum, d);
  }

  function NoAddrs(): (addrs: seq<uint>)
    ensures |addrs| == NDIRECT + 1
  {
    seq(NDIRECT + 1, _ => 0)
  }

  /** A free inode owns nothing. */
  ghost predicate FreeBare(tab: seq<Dinode>) {
    forall i :: 0 <= i < |tab| && tab[i].typ == 0 ==> tab[i].addrs == NoAddrs()
  }

  /** No bytes and no blocks. */
  ghost predicate Blank(d: Dinode) {
    d.size == 0 && |d.addrs| == NDIRECT + 1 && forall p :: 0 <= p <= NDIRECT ==> d.addrs[p] == 0
  }

  /** The inode is a file without bytes, whatever the image. */
  ghost predicate NoBytes(v: Image, d: Dinode) {
    && |d.addrs| == NDIRECT + 1 && Filled(v, d) && Content(v, d) == []
    && forall p: nat :: p < POSITIONS ==> At(v, d, p) == 0
  }

  lemma BlankNoBytes(v: Image, d: Dinode)
    requires Blank(d)
    ensures NoBytes(v, d)
  {
    assert d.addrs[TABLE] == 0;
  }

  lemma ClaimedBlank(typ: ushort)
    ensures Blank(Claimed(typ)) && Claimed(typ).nlink == 0
  {
  }

  /** What ialloc leaves of the inode. */
  function Claimed(typ: ushort): (d: Dinode) {
    Dinode(typ, 0, 0, 0, 0, NoAddrs())
  }

  /** ialloc's change: the inode is wiped and gets its type, on disk. */
  method Claim(fs: FileSystem, inum: nat, typ: ushort)
    requires fs.log.busy && Calm(fs) && inum < |fs.fs.tab| && fs.fs.tab[inum].addrs == NoAddrs()
    requires |fs.log.cache.Pinned() + {fs.log.area.To(fs.g.IBlock(inum))}| <= L.MAXLOAD
    modifies fs.log, fs.log.cache, fs`fs
    ensures fs.log.busy && Calm(fs) && fs.log.commits == old(fs.log.commits)
    ensures fs.fs == Files(old(fs.fs.tab)[inum := Claimed(typ)], old(fs.fs.owner))
    ensures OthersSame(old(fs.log.View()), old(fs.fs.tab), fs.log.View(), fs.fs.tab, inum)
    ensures fs.log.cache.Pinned() == old(fs.log.cache.Pinned()) + {fs.log.area.To(fs.g.IBlock(inum))}
  {
    hide L.Log.Valid, L.Log.View, Cache.Held, Cache.Pinned, Inv, At, OthersSame, Synced, SameFile, SameFiles,
         Geometry.IBlock, PutDinode;
    ghost var v, tab, d := fs.log.View(), fs.fs.tab, Claimed(typ);
    var s := fs.g.IBlock(inum);
    InvInode(fs.g, v, tab, fs.fs.owner, inum);
    InvResize(fs.g, v, tab, fs.fs.owner, inum, d);
    fs.fs := Files(tab[inum := d], fs.fs.owner);
    var bp := fs.log.Get(s);
    var data := PutDinode(fs.log.cache.bufs[bp].data, inum % IPB, Claimed(typ));
    assert fs.log.cache.Held() + fs.log.cache.Pinned() == old(fs.log.cache.Pinned()) + {fs.log.area.To(s)};
    fs.log.LogAndRelease(bp, s, data);
    InodeWriteKeeps(fs.g, v, fs.fs.tab, fs.fs.owner, {}, inum, data);
    assert fs.log.View() == UpdateImage(fs.g, v, inum, d);
    SyncedBut(fs.g, v, tab, inum);
    SyncedResize(fs.g, v, tab, inum, d);
    SyncedUpdate(fs.g, v, fs.fs.tab, inum);
    OthersSameRefl(v, tab, inum);
    ResizeOthers(v, tab, v, tab, fs.log.View(), fs.fs.tab, inum, d);
  }

  /** The number of inodes, from the super block. */
  method Ninodes(fs: FileSystem) returns (n: nat)
    requires Calm(fs) && |fs.log.cache.Pinned()| <= L.MAXLOAD
    modifies fs.log.cache
    ensures Calm(fs) && fs.log.View() == old(fs.log.View()) && fs.log.cache.Pinned() == old(fs.log.cache.Pinned())
    ensures n == |fs.fs.tab|
  {
    hide L.Log.Valid, L.Log.View, Cache.Held, Cache.Pinned, Synced;
    assert fs.Load() == fs.log.cache.Pinned();
    var _, ninodes := fs.Readsb({});
    n := ninodes;
  }

  /** ialloc: the lowest free inode becomes an inode of that type, and no other inode changes. The result 0 stands for
      the panic, which needs every inode to be in use. */
  method Ialloc(fs: FileSystem, typ: ushort) returns (inum: nat)
    requires fs.log.busy && Calm(fs) && FreeBare(fs.fs.tab) && |fs.log.cache.Pinned()| < L.MAXLOAD
    modifies fs.log, fs.log.cache, fs`fs
    ensures fs.log.busy && Calm(fs) && fs.log.commits == old(fs.log.commits)
    ensures inum == 0 ==> fs.log.View() == old(fs.log.View()) && fs.fs == old(fs.fs)
    ensures inum == 0 ==> forall k :: 0 < k < |fs.fs.tab| ==> fs.fs.tab[k].typ != 0
    ensures inum != 0 ==>
              && inum < |old(fs.fs.tab)| && old(fs.fs.tab)[inum].typ == 0
              && (forall k :: 0 < k < inum ==> old(fs.fs.tab)[k].typ != 0)
              && fs.fs == Files(old(fs.fs.tab)[inum := Claimed(typ)], old(fs.fs.owner))
              && Blank(fs.fs.tab[inum]) && fs.fs.tab[inum].typ == typ && fs.fs.tab[inum].nlink == 0
              && fs.fs.tab[inum].major == 0 && fs.fs.tab[inum].minor == 0 && NoBytes(fs.log.View(), fs.fs.tab[inum])
              && OthersSame(old(fs.log.View()), old(fs.fs.tab), fs.log.View(), fs.fs.tab, inum)
              && fs.log.cache.Pinned() == old(fs.log.cache.Pinned()) + {fs.log.area.To(fs.g.IBlock(inum))}
  {
    hide Calm, L.Log.View, Cache.Pinned, GetDinode, OthersSame, Geometry.IBlock;
    var ninodes := Ninodes(fs);
    inum := 1;
    while inum < ninodes
      invariant 0 < inum && ninodes == |fs.fs.tab| && fs.log.busy && Calm(fs) && fs.log.commits == old(fs.log.commits)
      invariant fs.fs == old(fs.fs) && fs.log.View() == old(fs.log.View())
      invariant fs.log.cache.Pinned() == old(fs.log.cache.Pinned())
      invariant forall k :: 0 < k < inum && k < ninodes ==> fs.fs.tab[k].typ != 0
    {
      var b := ReadInodeBlock(fs, inum);
      if GetDinode(b, inum % IPB).typ == 0 {
        UnionSize(fs.log.cache.Pinned(), {fs.log.area.To(fs.g.IBlock(inum))});
        Claim(fs, inum, typ);
        ClaimedBlank(typ);
        BlankNoBytes(fs.log.View(), fs.fs.tab[inum]);
        return;
      }
      inum := inum + 1;
    }
    inum := 0;
  }
}
