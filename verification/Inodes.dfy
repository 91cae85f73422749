/** The whole of iput: reference counts, link counts and the blocks of an inode together. */
module Inodes {
  import opened Layout
  import opened FsImage
  import opened FileSystem
  import opened Recovery
  import opened DiskLinks
  import opened DiskNodes
  import Icache
  import L = Log

  /** iput: one reference fewer. If it was the last one to an inode without links, exactly the inode's blocks become
      free, the inode is free in memory and on disk, no other file changes, and the link counts stay right; otherwise
      nothing else changes. */
  method Iput(c: Icache.Cache, i: nat, fs: FileSystem, ip: Inode, valid: bool)
    requires c.Valid() && i < Icache.NINODE && c.ss[i].ref > 0 && c.ss[i].key.inum == ip.inum > 0 && fs.Tied(ip)
    requires c.ss[i].ref == 1 && valid && ip.nlink == 0 ==>
               Working(fs) && |fs.log.cache.Pinned()| <= 6 && fs.RoomToFree(ip) && |fs.Bitmaps()| <= 1
    modifies c, fs.log, fs.log.cache, fs`fs, ip`addrs, ip`size, ip`typ
    ensures c.Valid() && fs.Tied(ip)
    ensures forall k :: Icache.Refs(c.ss, k) == old(Icache.Refs(c.ss, k)) - if k == old(c.ss)[i].key then 1 else 0
    ensures if old(c.ss[i].ref == 1 && valid && ip.nlink == 0)
            then
              && Working(fs) && CleanlyFreed(fs, ip, old(fs.log.View()), old(fs.fs), old(ip.Fields()))
              && fs.log.commits == old(fs.log.commits)
              && (old(Right(fs.log.View(), fs.fs.tab)) ==> Right(fs.log.View(), fs.fs.tab))
            else
              fs.fs == old(fs.fs) && ip.Fields() == old(ip.Fields()) && fs.log.View() == old(fs.log.View())
  {
    hide Working, Right, L.Log.View, FileSystem.RoomToFree, OthersSame, FileSystem.Bitmaps;
    if c.ss[i].ref == 1 && valid && ip.nlink == 0 {
      ReleaseRight(fs, ip);
    }
    c.Iput(i);
  }

  /** The inode's blocks, and no others, went back to the bitmap, and no other file changed. */
  ghost predicate CleanlyFreed(fs: FileSystem, ip: Inode, v: Image, was: Files, d: Dinode)
    reads fs, fs.log, fs.log.cache, ip
  {
    && |d.addrs| == NDIRECT + 1 && ip.inum < |was.tab|
    && ip.Fields() == Emptied(d).(typ := 0)
    && fs.fs == Files(was.tab[ip.inum := ip.Fields()], was.owner - BlocksOf(was.owner, ip.inum))
    && OthersSame(v, was.tab, fs.log.View(), fs.fs.tab, ip.inum)
  }
}
