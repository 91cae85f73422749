/** Directories as files: dirlookup and dirlink through readi and writei. */
module DirFiles {
  import opened Bytes
  import opened BufferCache
  import opened Layout
  import opened FsImage
  import opened FileBytes
  import opened FileSystem
  import opened Dirs
  import opened Recovery
  import L = Log

  const T_DIR: ushort := 1

  /** A directory inode between calls: its blocks are there and its size is a whole number of entries. */
  ghost predicate IsDir(fs: FileSystem, dp: Inode)
    reads fs, fs.log, fs.log.cache, dp
  {
    && |dp.addrs| == NDIRECT + 1 && dp.size <= MAXBYTES && dp.size % DESIZE == 0 && dp.typ == T_DIR
    && fs.Tied(dp) && fs.log.cache.Held() == {} && |fs.log.cache.Pinned()| < NBUF
    && fs.Ready({}) && Filled(fs.log.View(), dp.Fields())
  }

  /** The entries that the directory's bytes spell out. */
  ghost function Ents(fs: FileSystem, dp: Inode): (ents: seq<Ent>)
    reads fs, fs.log, fs.log.cache, dp
    requires IsDir(fs, dp)
    ensures |ents| == dp.size / DESIZE
  {
    Entries(Content(fs.log.View(), dp.Fields()))
  }

  /** Nothing that a client can see changed. */
  twostate predicate Untouched(fs: FileSystem, dp: Inode)
    reads fs, fs.log, fs.log.cache, dp
  {
    && fs.log.View() == old(fs.log.View()) && fs.Now(dp) == old(fs.Now(dp)) && fs.fs == old(fs.fs)
    && fs.log.busy == old(fs.log.busy) && fs.log.commits == old(fs.log.commits)
  }

  lemma EntryAt(bytes: seq<byte>, k: nat, piece: seq<byte>)
    requires |bytes| % DESIZE == 0 && k < |bytes| / DESIZE
    requires DESIZE * k + DESIZE <= |bytes| && piece == bytes[DESIZE * k..DESIZE * k + DESIZE]
    ensures Entries(bytes)[k] == Ent(Number(piece), Cut(piece[2..]))
  {
  }

  /** The inode number in the bytes of an entry. */
  function Number(de: seq<byte>): (inum: int)
    requires |de| == DESIZE
    ensures 0 <= inum < 0x10000
  {
    var lo: int, hi: int := de[0], de[1];
    lo + 256 * hi
  }

  /** readi of entry `k`, which never comes up short. */
  method ReadEntry(fs: FileSystem, dp: Inode, off: uint, ghost k: nat) returns (de: seq<byte>)
    requires IsDir(fs, dp) && off == DESIZE * k && off < dp.size
    modifies fs.log, fs.log.cache, fs`fs, dp`addrs
    ensures IsDir(fs, dp) && Untouched(fs, dp) && Ents(fs, dp) == old(Ents(fs, dp)) && k < |Ents(fs, dp)|
    ensures |de| == DESIZE && Ents(fs, dp)[k] == Ent(Number(de), Cut(de[2..]))
  {
    hide FileSystem.Ready, Cache.Held, Cache.Pinned, L.Log.View, Filled, Content, Cut;
    var r;
    WholeEntry(dp.size, k);
    r, de := fs.Readi(dp, off, DESIZE);
    EntryAt(Content(fs.log.View(), dp.Fields()), k, de);
  }

  lemma WholeEntry(size: nat, k: nat)
    requires size % DESIZE == 0 && DESIZE * k < size <= MAXBYTES
    ensures k < size / DESIZE && DESIZE * k + DESIZE <= size && DESIZE * k + DESIZE <= UINT_MAX
  {
  }

  /** dirlookup: what the directory maps the name to, and the offset of the entry. */
  method Dirlookup(fs: FileSystem, dp: Inode, name: Name) returns (inum: int, off: uint)
    requires IsDir(fs, dp) && NoNul(name)
    modifies fs.log, fs.log.cache, fs`fs, dp`addrs
    ensures IsDir(fs, dp) && Untouched(fs, dp) && Ents(fs, dp) == old(Ents(fs, dp))
    ensures inum == Get(Ents(fs, dp), Trunc(name))
    ensures inum != 0 ==> off == DESIZE * Find(Ents(fs, dp), Trunc(name))
  {
    hide IsDir, Ents, Cut, FileSystem.Now;
    off := 0;
    ghost var k, ents := 0, Ents(fs, dp);
    SizeIs(fs, dp);
    while off < dp.size
      invariant IsDir(fs, dp) && Untouched(fs, dp) && Ents(fs, dp) == ents && dp.size == old(dp.size)
      invariant off == DESIZE * k && k <= |ents| && Find(ents, Trunc(name)) == k + Find(ents[k..], Trunc(name))
    {
      SizeIs(fs, dp);
      var de := ReadEntry(fs, dp, off, k);
      SizeIs(fs, dp);
      inum := Number(de);
      if inum != 0 {
        var c := Namecmp(name, de[2..]);
        if c == 0 {
          return;
        }
      }
      assert ents[k..][1..] == ents[k + 1..];
      k := k + 1;
      off := off + DESIZE;
    }
    inum := 0;
  }

  lemma SizeIs(fs: FileSystem, dp: Inode)
    requires IsDir(fs, dp)
    ensures dp.size == DESIZE * |Ents(fs, dp)| <= MAXBYTES
    ensures fs.Now(dp).ino.size == dp.size
  {
    hide FileSystem.Ready, Cache.Held, Cache.Pinned, L.Log.View, Filled, Content;
  }

  /** What writing entry `k` costs: beside the bitmap, the inode and the table at most one sector is logged, and no more
      blocks are allocated than the entry needs. */
  ghost predicate EntryCost(g: Geometry, log: Area, bitmaps: set<Addr>, s0: Snap, s: Snap, inum: nat, k: nat) {
    && |s0.ino.addrs| == |s.ino.addrs| == NDIRECT + 1
    && Within(s.pinned, s0.pinned + bitmaps + {log.To(g.IBlock(inum))} + TableBlock(log, s.ino), 1)
    && s.owned <= s0.owned + BlocksNeeded(s0.ino, DESIZE * k + DESIZE)
    && (s0.ino.addrs[TABLE] != s.ino.addrs[TABLE] ==> k >= NDIRECT * BSIZE / DESIZE)
  }

  lemma EntryCosts(g: Geometry, log: Area, bitmaps: set<Addr>, s0: Snap, s: Snap, inum: nat, k: nat, src: seq<byte>)
    requires Wrote(g, log, bitmaps, s0, s, inum, DESIZE * k, src) && |src| == DESIZE
    ensures EntryCost(g, log, bitmaps, s0, s, inum, k)
  {
    hide Content, Filled, Splice, TableBlock, BlocksNeeded;
    assert Covered(DESIZE * k, DESIZE) == 1;
  }

  /** writei of entry `k`, or of a new one at the end: that entry changes and no other, and no other file does. */
  method WriteEntryAt(fs: FileSystem, dp: Inode, off: uint, e: Ent, ghost k: nat)
    requires IsDir(fs, dp) && k <= |Ents(fs, dp)| && off == DESIZE * k && DESIZE * k + DESIZE <= MAXBYTES
    requires fs.CanWrite(dp, off, DESIZE) && 0 <= e.inum < 0x10000 && NoNul(e.name) && |e.name| <= DIRSIZ
    modifies fs.log, fs.log.cache, fs`fs, dp`addrs, dp`size
    ensures IsDir(fs, dp) && Ents(fs, dp) == Put(old(Ents(fs, dp)), k, e)
    ensures EntryCost(fs.g, fs.log.area, fs.Bitmaps(), old(fs.Now(dp)), fs.Now(dp), dp.inum, k)
    ensures fs.log.busy && fs.log.commits == old(fs.log.commits) && Synced(fs.g, fs.log.View(), fs.fs.tab, -1)
    ensures OthersSame(old(fs.log.View()), old(fs.fs.tab), fs.log.View(), fs.fs.tab, dp.inum)
  {
    hide FileSystem.Ready, Cache.Held, Cache.Pinned, L.Log.View, Filled, Content, Synced, OthersSame,
         FileSystem.Bitmaps, Splice,
         Covered, BlocksNeeded, Encode, Geometry.IBlock, EntryCost;
    ghost var bytes, s0 := Content(fs.log.View(), dp.Fields()), fs.Now(dp);
    SizeIs(fs, dp);
    var r := fs.Writei(dp, Encode(e), off);
    Dirs.WriteEntry(bytes, k, e);
    EntryCosts(fs.g, fs.log.area, fs.Bitmaps(), s0, fs.Now(dp), dp.inum, k, Encode(e));
  }

  /** What writei needs, of the state alone. */
  ghost predicate MayWrite(g: Geometry, bitmaps: set<Addr>, inode: Addr, s: Snap, tab: seq<Dinode>, off: nat, n: nat) {
    && |s.ino.addrs| == NDIRECT + 1 && s.ino.typ != T_DEV && Synced(g, s.view, tab, -1) && Filled(s.view, s.ino)
    && (off <= s.ino.size && off + n <= MAXBYTES ==> WriteBudget(g, bitmaps, inode, s, off, n))
  }

  lemma CanMay(fs: FileSystem, dp: Inode, off: nat, n: nat)
    requires IsDir(fs, dp)
    ensures fs.CanWrite(dp, off, n) <==>
              fs.log.busy && MayWrite(fs.g, fs.Bitmaps(), fs.log.area.To(fs.g.IBlock(dp.inum)), fs.Now(dp), fs.fs.tab,
                  off, n)
  {
    hide FileSystem.Ready, Cache.Held, Cache.Pinned, L.Log.View, Filled, Synced, WriteBudget, FileSystem.Bitmaps,
         Geometry.IBlock;
  }

  /** The first free entry, or the end. */
  method FreeEntry(fs: FileSystem, dp: Inode) returns (off: uint)
    requires IsDir(fs, dp)
    modifies fs.log, fs.log.cache, fs`fs, dp`addrs
    ensures IsDir(fs, dp) && Untouched(fs, dp) && Ents(fs, dp) == old(Ents(fs, dp))
    ensures off == DESIZE * FirstFree(Ents(fs, dp))
  {
    hide IsDir, Ents, Cut, FileSystem.Now;
    off := 0;
    ghost var k, ents := 0, Ents(fs, dp);
    SizeIs(fs, dp);
    while off < dp.size
      invariant IsDir(fs, dp) && Untouched(fs, dp) && Ents(fs, dp) == ents && dp.size == old(dp.size)
      invariant off == DESIZE * k && k <= |ents| && FirstFree(ents) == k + FirstFree(ents[k..])
    {
      SizeIs(fs, dp);
      var de := ReadEntry(fs, dp, off, k);
      SizeIs(fs, dp);
      if Number(de) == 0 {
        return;
      }
      assert ents[k..][1..] == ents[k + 1..];
      k := k + 1;
      off := off + DESIZE;
    }
  }

  /** dirlink: refuses exactly the names that are there; otherwise the directory's map gains one pair, in the first free
      entry or at the end, and no other file changes. */
  method Dirlink(fs: FileSystem, dp: Inode, name: Name, inum: int) returns (r: int)
    requires IsDir(fs, dp) && NoNul(name) && 0 < inum < 0x10000 && NoDup(Ents(fs, dp))
    requires DESIZE * FirstFree(Ents(fs, dp)) + DESIZE <= MAXBYTES
    requires fs.CanWrite(dp, DESIZE * FirstFree(Ents(fs, dp)), DESIZE)
    modifies fs.log, fs.log.cache, fs`fs, dp`addrs, dp`size
    ensures IsDir(fs, dp) && (r == 0 || r == -1) && (r == 0 <==> Get(old(Ents(fs, dp)), Trunc(name)) == 0)
    ensures fs.log.busy && fs.log.commits == old(fs.log.commits) && NoDup(Ents(fs, dp))
    ensures r == -1 ==> Untouched(fs, dp) && Ents(fs, dp) == old(Ents(fs, dp))
    ensures r == 0 ==>
              && Ents(fs, dp) == Add(old(Ents(fs, dp)), Trunc(name), inum) && Synced(fs.g, fs.log.View(), fs.fs.tab, -1)
              && OthersSame(old(fs.log.View()), old(fs.fs.tab), fs.log.View(), fs.fs.tab, dp.inum)
              && EntryCost(fs.g, fs.log.area, fs.Bitmaps(), old(fs.Now(dp)), fs.Now(dp), dp.inum,
                           FirstFree(old(Ents(fs, dp))))
              && forall m :: Get(Ents(fs, dp), m) == if m == Trunc(name) then inum else Get(old(Ents(fs, dp)), m)
  {
    hide IsDir, Ents, FileSystem.CanWrite, OthersSame, Synced, L.Log.View, NoDup, Get, Find, FirstFree, FileSystem.Now,
         MayWrite, FileSystem.Bitmaps, EntryCost;
    ghost var ents := Ents(fs, dp);
    ghost var k := FirstFree(ents);
    CanMay(fs, dp, DESIZE * k, DESIZE);
    var there, at := Dirlookup(fs, dp, name);
    if there != 0 {
      return -1;
    }
    var off := FreeEntry(fs, dp);
    CanMay(fs, dp, DESIZE * k, DESIZE);
    WriteEntryAt(fs, dp, off, Ent(inum, Trunc(name)), k);
    forall m ensures Get(Ents(fs, dp), m) == if m == Trunc(name) then inum else Get(ents, m) {
      AddGets(ents, Trunc(name), inum, m);
    }
    AddGets(ents, Trunc(name), inum, []);
    return 0;
  }

  /** The entry that sys_unlink clears. */
  method Dirclear(fs: FileSystem, dp: Inode, off: uint, ghost k: nat)
    requires IsDir(fs, dp) && k < |Ents(fs, dp)| && off == DESIZE * k && NoDup(Ents(fs, dp))
             && Ents(fs, dp)[k].inum != 0
    requires fs.CanWrite(dp, off, DESIZE)
    modifies fs.log, fs.log.cache, fs`fs, dp`addrs, dp`size
    ensures IsDir(fs, dp) && fs.log.busy && fs.log.commits == old(fs.log.commits) && NoDup(Ents(fs, dp))
    ensures Synced(fs.g, fs.log.View(), fs.fs.tab, -1)
    ensures OthersSame(old(fs.log.View()), old(fs.fs.tab), fs.log.View(), fs.fs.tab, dp.inum)
    ensures Ents(fs, dp) == old(Ents(fs, dp))[k := Ent(0, [])]
    ensures EntryCost(fs.g, fs.log.area, fs.Bitmaps(), old(fs.Now(dp)), fs.Now(dp), dp.inum, k)
    ensures forall m :: Get(Ents(fs, dp), m) == if m == old(Ents(fs, dp))[k].name then 0 else Get(old(Ents(fs, dp)), m)
  {
    hide IsDir, Ents, FileSystem.CanWrite, OthersSame, Synced, L.Log.View, NoDup, Get, Find, EntryCost, FileSystem.Now;
    ghost var ents := Ents(fs, dp);
    SizeIs(fs, dp);
    WriteEntryAt(fs, dp, off, Ent(0, []), k);
    forall m ensures Get(Ents(fs, dp), m) == if m == ents[k].name then 0 else Get(ents, m) {
      ClearGets(ents, k, m);
    }
    ClearGets(ents, k, []);
  }
}
