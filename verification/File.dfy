/** Reading and writing through an open file: filewrite cuts a write into transactions small enough for the log. */
module File {
  import opened Bytes
  import opened BufferCache
  import opened Recovery
  import opened Layout
  import opened FsImage
  import opened FileBytes
  import opened FileSystem
  import L = Log

  /** The most that filewrite puts into one transaction: half of what the log holds beside the inode, the indirect block
      and two blocks of slop, in bytes. */
  const CHUNK: nat := (LOGSIZE - 1 - 1 - 2) / 2 * 512

  function Min(a: nat, b: nat): (m: nat)
    ensures m <= a && m <= b && (m == a || m == b)
  {
    if a < b then a else b
  }

  /** How many of `n` bytes at `off` filewrite gets onto the disk: all of them, or whole chunks until one would not fit
      in the largest file. */
  function Accepted(size: nat, off: nat, n: nat): (k: nat)
    ensures k <= n
  {
    if n == 0 || off > size then 0
    else if off + n <= MAXBYTES then n
    else if off > MAXBYTES then 0
    else (MAXBYTES - off) / CHUNK * CHUNK
  }

  lemma WholeChunks(x: nat, i: nat)
    requires i % CHUNK == 0 && i <= x
    ensures x < i + CHUNK ==> x / CHUNK * CHUNK == i
    ensures x >= i + CHUNK ==> x / CHUNK * CHUNK >= i + CHUNK
  {
    assert CHUNK == 1536;
    assert i == i / 1536 * 1536 && x / CHUNK == x / 1536;
  }

  /** The chunk that would start at `i` is the first that writei refuses. */
  lemma AcceptedEnd(size: nat, off: nat, n: nat, i: nat)
    requires i < n && i % CHUNK == 0 && off <= size && off + i <= MAXBYTES
    ensures off + i + Min(n - i, CHUNK) > MAXBYTES ==> i == Accepted(size, off, n) < n
    ensures off + i + Min(n - i, CHUNK) <= MAXBYTES ==> i + Min(n - i, CHUNK) <= Accepted(size, off, n)
  {
    WholeChunks(MAXBYTES - off, i);
  }

  lemma NextBoundary(i: nat, n: nat)
    requires i % CHUNK == 0 && i < n
    ensures (i + Min(n - i, CHUNK)) % CHUNK == 0 || i + Min(n - i, CHUNK) == n
  {
    assert CHUNK == 1536;
    assert (i + 1536) % 1536 == i % 1536;
  }

  /** A chunk touches at most four blocks. */
  lemma ChunkCovers(off: nat, n: nat)
    requires n <= CHUNK
    ensures Covered(off, n) <= 4
  {
  }

  /** Two adjacent writes are one. */
  lemma SpliceTwice(content: seq<byte>, off: nat, a: seq<byte>, b: seq<byte>)
    requires off <= |content|
    ensures Splice(Splice(content, off, a), off + |a|, b) == Splice(content, off, a + b)
  {
  }

  /** Blocks used and blocks still needed never grow, chunk after chunk. */
  lemma NeededAfter(s0: Snap, s: Snap, off: nat, n: nat, end: nat)
    requires |s0.ino.addrs| == |s.ino.addrs| == NDIRECT + 1 && off + n <= end
    requires s.ino.size == if off + n > s0.ino.size then off + n else s0.ino.size
    requires s.owned + BlocksNeeded(s.ino, off + n) <= s0.owned + BlocksNeeded(s0.ino, off + n)
    requires s0.ino.addrs[TABLE] != s.ino.addrs[TABLE] ==> s0.ino.addrs[TABLE] == 0 && Blocks(off + n) > NDIRECT
    ensures s.owned + BlocksNeeded(s.ino, end) <= s0.owned + BlocksNeeded(s0.ino, end)
  {
    GrowByTwice(s0.ino.size, off + n, end);
    GrowByTwice(s0.ino.size, off + n, off + n);
  }

  lemma NeededMore(d: Dinode, e1: nat, e2: nat)
    requires |d.addrs| == NDIRECT + 1 && e1 <= e2
    ensures BlocksNeeded(d, e1) <= BlocksNeeded(d, e2)
  {
    GrowByMore(d.size, e1, e2);
  }

  /** With a single bitmap block, a chunk starting from an empty log stays within seven sectors. */
  lemma ChunkBudget(g: Geometry, bitmaps: set<Addr>, inode: Addr, s: Snap, off: nat, n: nat, end: nat)
    requires |s.ino.addrs| == NDIRECT + 1 && s.pinned == {} && |bitmaps| <= 1 && n <= CHUNK && off + n <= end
    requires s.owned + BlocksNeeded(s.ino, end) <= g.start - g.DataStart()
    ensures WriteBudget(g, bitmaps, inode, s, off, n)
    ensures |s.pinned + bitmaps + {inode}| + 1 + Covered(off, n) <= 7
  {
    hide BlocksNeeded, Covered;
    ChunkCovers(off, n);
    NeededMore(s.ino, off + n, end);
    assert s.pinned + bitmaps + {inode} == bitmaps + {inode};
    UnionSize(bitmaps, {inode});
  }

  lemma OneBitmapBlock(fs: FileSystem)
    requires fs.g.size <= BPB
    ensures |fs.Bitmaps()| <= 1
  {
    SubsetSize(fs.Bitmaps(), {fs.log.area.To(fs.g.BBlock(0))});
  }

  /** What a chunk's writei leaves: few logged sectors, the new bytes, and enough blocks for the rest. */
  lemma WroteMeans(g: Geometry, log: Area, bitmaps: set<Addr>, s0: Snap, s: Snap, inum: nat, off: nat, src: seq<byte>,
                   end: nat)
    requires Wrote(g, log, bitmaps, s0, s, inum, off, src) && off + |src| <= end
    requires |s0.pinned + bitmaps + {log.To(g.IBlock(inum))}| + 1 + Covered(off, |src|) <= 7
    ensures |s.pinned| <= 7 && Filled(s.view, s.ino) && s.ino.size <= MAXBYTES && s.ino.typ == s0.ino.typ
    ensures s0.ino.size <= MAXBYTES && off <= s0.ino.size && |s0.ino.addrs| == |s.ino.addrs| == NDIRECT + 1
    ensures Content(s.view, s.ino) == Splice(Content(s0.view, s0.ino), off, src)
    ensures s.owned + BlocksNeeded(s.ino, end) <= s0.owned + BlocksNeeded(s0.ino, end)
  {
    hide Filled, Covered, BlocksNeeded;
    assert |Content(s.view, s.ino)| == s.ino.size;
    NeededAfter(s0, s, off, |src|, end);
  }

  /** The bytes that file `inum` has in an image, by its inode there. */
  ghost predicate FileIs(g: Geometry, v: Image, inum: nat, bytes: seq<byte>) {
    var d := OnDisk(g, v, inum);
    |d.addrs| == NDIRECT + 1 && Filled(v, d) && Content(v, d) == bytes
  }

  /** Image `v` has the first `j` bytes of `src` in the file, and `j` is a chunk boundary. */
  ghost predicate UpTo(g: Geometry, v: Image, inum: nat, content: seq<byte>, off: nat, src: seq<byte>, j: nat)
    requires off <= |content|
  {
    j <= |src| && (j % CHUNK == 0 || j == |src|) && FileIs(g, v, inum, Splice(content, off, src[..j]))
  }

  /** The files other than `inum` that are whole in `v0` have the same bytes in `v`. */
  ghost predicate OthersKept(g: Geometry, v0: Image, v: Image, inum: nat) {
    forall j: nat, bytes :: j < g.ninodes && j != inum && FileIs(g, v0, j, bytes) ==> FileIs(g, v, j, bytes)
  }

  lemma OthersOnDisk(g: Geometry, v: Image, tab: seq<Dinode>, v': Image, tab': seq<Dinode>, inum: nat)
    requires OthersSame(v, tab, v', tab', inum) && Synced(g, v, tab, -1) && Synced(g, v', tab', -1)
             && |tab| == g.ninodes
    ensures OthersKept(g, v, v', inum)
  {
    forall j: nat, bytes | j < g.ninodes && j != inum && FileIs(g, v, j, bytes) ensures FileIs(g, v', j, bytes) {
      hide Filled, Content, SameFile;
      assert OnDisk(g, v, j) == tab[j] && OnDisk(g, v', j) == tab[j];
      SameFileSameContent(v, v', tab[j]);
    }
  }

  /** Image `v`, from after `v0`: some leading chunks of `src` are in the file, and the other files are as they were. */
  ghost predicate PartWritten(g: Geometry, v0: Image, v: Image, inum: nat, content: seq<byte>, off: nat, src: seq<byte>)
    requires off <= |content|
  {
    AtBoundary(g, v, inum, content, off, src) && OthersKept(g, v0, v, inum)
  }

  /** The last commit of `commits0` has the file with bytes `content`, and every image committed since is partly
      written. */
  ghost predicate Prefixes(g: Geometry, commits0: seq<Image>, commits: seq<Image>, inum: nat, content: seq<byte>,
                           off: nat,
                           src: seq<byte>)
    requires off <= |content|
  {
    && commits0 <= commits && |commits0| > 0 && FileIs(g, commits0[|commits0| - 1], inum, content)
    && forall k :: |commits0| <= k < |commits| ==>
         PartWritten(g, commits0[|commits0| - 1], commits[k], inum, content, off, src)
  }

  ghost predicate AtBoundary(g: Geometry, v: Image, inum: nat, content: seq<byte>, off: nat, src: seq<byte>)
    requires off <= |content|
  {
    exists j: nat :: UpTo(g, v, inum, content, off, src, j)
  }

  lemma PrefixesNone(g: Geometry, c: seq<Image>, inum: nat, content: seq<byte>, off: nat, src: seq<byte>)
    requires off <= |content| && |c| > 0 && FileIs(g, c[|c| - 1], inum, content)
    ensures Prefixes(g, c, c, inum, content, off, src)
  {
  }

  lemma SpliceNone(content: seq<byte>, off: nat, src: seq<byte>)
    requires off <= |content|
    ensures Splice(content, off, src[..0]) == content
  {
  }

  lemma AcceptedPast(size: nat, off: nat, n: nat)
    ensures off > size || n == 0 ==> Accepted(size, off, n) == 0
  {
  }

  lemma PrefixesMore(g: Geometry, c0: seq<Image>, c: seq<Image>, v: Image, inum: nat, content: seq<byte>, off: nat,
                     src: seq<byte>)
    requires off <= |content| && Prefixes(g, c0, c, inum, content, off, src)
    requires PartWritten(g, c0[|c0| - 1], v, inum, content, off, src)
    ensures Prefixes(g, c0, c + [v], inum, content, off, src)
  {
    hide PartWritten, FileIs;
  }

  /** Before its first commit nothing of the write is there. */
  lemma NothingWritten(g: Geometry, v: Image, inum: nat, content: seq<byte>, off: nat, src: seq<byte>)
    requires off <= |content| && FileIs(g, v, inum, content)
    ensures PartWritten(g, v, v, inum, content, off, src)
  {
    hide FileIs;
    SpliceNone(content, off, src);
    assert UpTo(g, v, inum, content, off, src, 0);
  }

  lemma SyncedFile(g: Geometry, v: Image, tab: seq<Dinode>, inum: nat, bytes: seq<byte>)
    requires Synced(g, v, tab, -1) && inum < |tab| && |tab[inum].addrs| == NDIRECT + 1 && Filled(v, tab[inum])
    requires tab[inum].size <= MAXFILE * BSIZE && Content(v, tab[inum]) == bytes
    ensures FileIs(g, v, inum, bytes)
  {
  }

  /** A crash at any moment of a filewrite, however often recovery is cut off too, leaves the file with some leading
      chunks of the write and nothing of the others, and every other file as it was. */
  lemma CrashedWrite(g: Geometry, log: Area, trace: seq<Disk>, commits0: seq<Image>, commits: seq<Image>,
                     epoch: seq<nat>,
                     inum: nat, content: seq<byte>, off: nat, src: seq<byte>, k: nat, ds: seq<Disk>)
    requires off <= |content| && Prefixes(g, commits0, commits, inum, content, off, src)
    requires L.Durable(log, trace, commits, epoch) && k < |trace| && epoch[k] >= |commits0| - 1
    requires CrashChain(log, ds) && ds[0] == trace[k]
    ensures var last := ds[|ds| - 1];
            var v := Homes(log, RecoveryDisk(log, last, |HeaderSectors(last[log.Head()])| + 1));
            PartWritten(g, commits0[|commits0| - 1], v, inum, content, off, src)
  {
    hide PartWritten, Homes, RecoveryDisk, HeaderSectors, CutOff, FileIs;
    L.CrashAnywhere(log, trace, commits, epoch, k, ds);
    NothingWritten(g, commits0[|commits0| - 1], inum, content, off, src);
  }

  /** Whatever disk a crash and any number of interrupted recoveries lead to, it is consistent if every commit is. */
  lemma CrashedConsistent(g: Geometry, log: Area, trace: seq<Disk>, commits: seq<Image>, epoch: seq<nat>, k: nat,
                          ds: seq<Disk>)
    requires L.Durable(log, trace, commits, epoch) && k < |trace| && CrashChain(log, ds) && ds[0] == trace[k]
    requires forall c :: 0 <= c < |commits| ==> Consistent(g, commits[c])
    ensures var last := ds[|ds| - 1];
            Consistent(g, Homes(log, RecoveryDisk(log, last, |HeaderSectors(last[log.Head()])| + 1)))
  {
    hide Consistent, Homes, RecoveryDisk, HeaderSectors, CutOff;
    L.CrashAnywhere(log, trace, commits, epoch, k, ds);
  }

  /** A filewrite under way: `src` goes to `off` of a file that held `content`. */
  datatype Job = Job(content: seq<byte>, off: nat, src: seq<byte>, view: Image, tab: seq<Dinode>, commits: seq<Image>) {
    function Total(): (k: nat)
      ensures k <= |src|
    {
      Accepted(|content|, off, |src|)
    }
  }

  /** At the start the cached inodes were those of the last commit. */
  ghost predicate Begun(g: Geometry, job: Job) {
    && Synced(g, job.view, job.tab, -1) && |job.tab| == g.ninodes
    && |job.commits| > 0 && job.commits[|job.commits| - 1] == job.view
  }

  /** The first `i` bytes are done. */
  ghost predicate Done(g: Geometry, job: Job, inum: nat, i: nat, bytes: seq<byte>, view: Image, tab: seq<Dinode>,
                       commits: seq<Image>) {
    && i <= |job.src|
    && OthersSame(job.view, job.tab, view, tab, inum) && Begun(g, job)
    && (job.off > |job.content| ==> i == 0 && bytes == job.content)
    && (job.off <= |job.content| ==>
          bytes == Splice(job.content, job.off, job.src[..i])
          && Prefixes(g, job.commits, commits, inum, job.content, job.off, job.src))
  }

  lemma DoneNone(g: Geometry, job: Job, inum: nat)
    requires Begun(g, job) && FileIs(g, job.view, inum, job.content)
    ensures Done(g, job, inum, 0, job.content, job.view, job.tab, job.commits)
  {
    hide OthersSame, Prefixes, FileIs, Synced;
    OthersSameRefl(job.view, job.tab, inum);
    if job.off <= |job.content| {
      SpliceNone(job.content, job.off, job.src);
      PrefixesNone(g, job.commits, inum, job.content, job.off, job.src);
    }
  }

  lemma DoneBytes(g: Geometry, job: Job, inum: nat, i: nat, bytes: seq<byte>, view: Image, tab: seq<Dinode>,
                  c: seq<Image>)
    requires Done(g, job, inum, i, bytes, view, tab, c)
    ensures job.off + i > |bytes| <==> job.off > |job.content|
    ensures job.off > |job.content| ==> bytes == job.content
  {
    hide OthersSame, Prefixes, Begun;
  }

  /** One more transaction. */
  lemma DoneMore(g: Geometry, job: Job, inum: nat, i: nat, bytes: seq<byte>, view: Image, tab: seq<Dinode>,
                 c: seq<Image>,
                 n: nat, view': Image, tab': seq<Dinode>, c': seq<Image>, bytes': seq<byte>)
    requires Done(g, job, inum, i, bytes, view, tab, c) && OthersSame(view, tab, view', tab', inum)
             && i + n <= |job.src|
    requires n == 0 ==> bytes' == bytes
    requires n > 0 ==> job.off <= |job.content| && bytes' == Splice(bytes, job.off + i, job.src[i..i + n])
    requires Synced(g, view', tab', -1) && FileIs(g, view', inum, bytes')
             && ((i + n) % CHUNK == 0 || i + n == |job.src|)
    requires c' == c || c' == c + [view']
    ensures Done(g, job, inum, i + n, bytes', view', tab', c')
  {
    hide OthersSame, Prefixes, FileIs, Synced, OthersKept;
    OthersSameTrans(job.view, job.tab, view, tab, view', tab', inum);
    if job.off <= |job.content| {
      if n > 0 {
        assert job.src[..i] + job.src[i..i + n] == job.src[..i + n];
        SpliceTwice(job.content, job.off, job.src[..i], job.src[i..i + n]);
      }
      assert UpTo(g, view', inum, job.content, job.off, job.src, i + n);
      OthersOnDisk(g, job.view, job.tab, view', tab', inum);
      PrefixesMore(g, job.commits, c, view', inum, job.content, job.off, job.src);
    }
  }

  /** An open file that is an inode. */
  class OpenFile {
    const fs: FileSystem
    const ip: Inode
    const readable: bool
    const writable: bool
    var off: uint

    constructor (fs: FileSystem, ip: Inode, readable: bool, writable: bool)
      ensures this.fs == fs && this.ip == ip && this.readable == readable && this.writable == writable && off == 0
    {
      this.fs := fs;
      this.ip := ip;
      this.readable := readable;
      this.writable := writable;
      off := 0;
    }

    /** Between transactions: nothing is held or logged, and the inode on disk is the one in memory. */
    ghost predicate Quiet()
      reads fs, fs.log, fs.log.cache, ip
    {
      && fs.Ready({}) && fs.Committed() && fs.log.cache.Held() == {} && !fs.log.busy && fs.Tied(ip)
      && Synced(fs.g, fs.log.View(), fs.fs.tab, -1) && Filled(fs.log.View(), ip.Fields()) && ip.typ != T_DEV
    }

    ghost predicate Sized()
      reads ip
    {
      |ip.addrs| == NDIRECT + 1 && ip.size <= MAXFILE * BSIZE
    }

    ghost function Bytes(): (s: seq<byte>)
      reads fs, fs.log, fs.log.cache, ip
      requires Sized()
      ensures |s| == ip.size
    {
      Content(fs.log.View(), ip.Fields())
    }

    /** Enough free blocks for the file to reach `end` bytes. */
    ghost predicate Space(end: nat)
      reads fs, ip
    {
      |ip.addrs| == NDIRECT + 1 && |fs.fs.owner| + BlocksNeeded(ip.Fields(), end) <= fs.g.start - fs.g.DataStart()
    }

    /** fileread: the bytes at the offset, which moves past them. */
    method Read(n: uint) returns (r: int, dst: seq<byte>)
      requires Quiet() && Sized()
      modifies fs.log, fs.log.cache, fs`fs, ip`addrs, this`off
      ensures Quiet() && Sized() && Bytes() == old(Bytes()) && fs.log.commits == old(fs.log.commits)
      ensures !readable || old(off) > ip.size || old(off) + n > UINT_MAX ==> r == -1 && dst == [] && off == old(off)
      ensures readable && old(off) <= ip.size && old(off) + n <= UINT_MAX ==>
                && r == Min(ip.size - old(off), n) && off == old(off) + r
                && dst == Bytes()[old(off)..off]
    {
      hide FileSystem.Ready, Cache.Held, Cache.Pinned, L.Log.View, L.Log.Valid, Synced, Filled, Content;
      if !readable {
        return -1, [];
      }
      fs.NothingLogged();
      r, dst := fs.Readi(ip, off, n);
      if r > 0 {
        off := off + r;
      }
    }

    /** One transaction of filewrite: a writei between begin_trans and commit_trans. */
    method WriteTrans(src: seq<byte>, ghost end: nat) returns (r: int)
      requires Quiet() && |src| <= CHUNK && fs.g.size <= BPB && Sized() && Space(end)
      requires off <= ip.size && off + |src| <= MAXBYTES ==> off + |src| <= end
      modifies fs.log, fs.log.cache, fs`fs, ip`addrs, ip`size, this`off
      ensures Quiet() && Sized() && Space(end)
      ensures OthersSame(old(fs.log.View()), old(fs.fs.tab), fs.log.View(), fs.fs.tab, ip.inum)
      ensures old(off) > old(ip.size) || old(off) + |src| > MAXBYTES ==>
                r == -1 && off == old(off) && Bytes() == old(Bytes()) && ip.size == old(ip.size)
      ensures old(off) <= old(ip.size) && old(off) + |src| <= MAXBYTES ==>
                && r == |src| && off == old(off) + |src| && Bytes() == Splice(old(Bytes()), old(off), src)
      ensures fs.log.commits == old(fs.log.commits) || fs.log.commits == old(fs.log.commits) + [fs.log.View()]
    {
      hide FileSystem.Ready, Cache.Held, Cache.Pinned, L.Log.View, L.Log.Valid, OthersSame, FileSystem.Bitmaps,
           WriteBudget, Synced, Filled, Wrote, BlocksNeeded, Content, Splice, Covered;
      fs.Begin();
      ghost var s0 := fs.Now(ip);
      if off <= ip.size && off + |src| <= MAXBYTES {
        OneBitmapBlock(fs);
        ChunkBudget(fs.g, fs.Bitmaps(), fs.log.area.To(fs.g.IBlock(ip.inum)), s0, off, |src|, end);
      }
      r := fs.Writei(ip, src, off);
      ghost var s := fs.Now(ip);
      if r >= 0 {
        WroteMeans(fs.g, fs.log.area, fs.Bitmaps(), s0, s, ip.inum, off, src, end);
      } else {
        SubsetSize(s.pinned, {});
      }
      if r > 0 {
        off := off + r;
      }
      fs.Commit();
    }

    ghost predicate InJob(job: Job, i: nat)
      reads this, fs, fs.log, fs.log.cache, ip
    {
      && Quiet() && Sized() && fs.g.size <= BPB && Space(job.off + job.Total()) && off == job.off + i
          && i <= job.Total()
      && Done(fs.g, job, ip.inum, i, Bytes(), fs.log.View(), fs.fs.tab, fs.log.commits)
    }

    lemma OnDiskNow()
      requires Quiet() && Sized()
      ensures FileIs(fs.g, fs.log.View(), ip.inum, Bytes()) && Synced(fs.g, fs.log.View(), fs.fs.tab, -1)
    {
      hide Synced, Filled, Content, L.Log.View, FileSystem.Ready;
      SyncedFile(fs.g, fs.log.View(), fs.fs.tab, ip.inum, Bytes());
    }

    lemma AtStart(job: Job)
      requires Quiet() && Sized() && fs.g.size <= BPB && Space(job.off + job.Total()) && off == job.off
      requires job.view == fs.log.View() && job.tab == fs.fs.tab && job.commits == fs.log.commits
               && job.content == Bytes()
      ensures InJob(job, 0)
    {
      hide Synced, Filled, Inv, Space, Accepted, Done, Bytes, FileIs;
      fs.ReadyFacts({});
      fs.log.LastCommit();
      OnDiskNow();
      DoneNone(fs.g, job, ip.inum);
    }

    lemma JobEnds(job: Job, i: nat)
      requires InJob(job, i)
      ensures Quiet() && Sized() && off == job.off + i && i <= job.Total() <= |job.src|
      ensures OthersSame(job.view, job.tab, fs.log.View(), fs.fs.tab, ip.inum)
      ensures if job.off <= |job.content|
              then Bytes() == Splice(job.content, job.off, job.src[..i])
                   && Prefixes(fs.g, job.commits, fs.log.commits, ip.inum, job.content, job.off, job.src)
              else Bytes() == job.content
    {
      hide Quiet, Space, Accepted, Prefixes, OthersSame, Bytes, Splice, L.Log.View;
    }

    /** The next chunk has room, or it is the one that writei refuses. */
    lemma JobFits(job: Job, i: nat)
      requires InJob(job, i) && i < |job.src| && i % CHUNK == 0
      ensures Quiet() && Sized() && fs.g.size <= BPB && Space(job.off + job.Total()) && off == job.off + i
      ensures Done(fs.g, job, ip.inum, i, Bytes(), fs.log.View(), fs.fs.tab, fs.log.commits)
      ensures var end := off + Min(|job.src| - i, CHUNK);
              if off <= ip.size && end <= MAXBYTES then job.off <= |job.content| && end <= job.off + job.Total()
              else i == job.Total() < |job.src|
      ensures var end := i + Min(|job.src| - i, CHUNK);
              end % CHUNK == 0 || end == |job.src|
    {
      hide L.Log.View, Quiet, Space, Bytes, Done, Accepted;
      NextBoundary(i, |job.src|);
      DoneBytes(fs.g, job, ip.inum, i, Bytes(), fs.log.View(), fs.fs.tab, fs.log.commits);
      AcceptedPast(|job.content|, job.off, |job.src|);
      if job.off <= |job.content| {
        AcceptedEnd(|job.content|, job.off, |job.src|, i);
      }
    }

    lemma JobMore(job: Job, i: nat, n: nat, b: seq<byte>, v: Image, tab: seq<Dinode>, c: seq<Image>)
      requires Done(fs.g, job, ip.inum, i, b, v, tab, c) && OthersSame(v, tab, fs.log.View(), fs.fs.tab, ip.inum)
      requires Quiet() && Sized() && fs.g.size <= BPB && Space(job.off + job.Total())
      requires off == job.off + (i + n) && i + n <= job.Total() && ((i + n) % CHUNK == 0 || i + n == |job.src|)
      requires n == 0 ==> Bytes() == b
      requires n > 0 ==>
               job.off <= |job.content| && job.off + i <= |b|
               && Bytes() == Splice(b, job.off + i, job.src[i..i + n])
      requires fs.log.commits == c || fs.log.commits == c + [fs.log.View()]
      ensures InJob(job, i + n)
    {
      hide OthersSame, L.Log.View, Quiet, Space, Splice, Accepted, Bytes, Done, FileIs, Synced;
      OnDiskNow();
      DoneMore(fs.g, job, ip.inum, i, b, v, tab, c, n, fs.log.View(), fs.fs.tab, fs.log.commits, Bytes());
    }

    /** One round of filewrite's loop. */
    method WriteNext(src: seq<byte>, i: nat, ghost job: Job) returns (r: int)
      requires InJob(job, i) && job.src == src && i < |src| && i % CHUNK == 0
      modifies fs.log, fs.log.cache, fs`fs, ip`addrs, ip`size, this`off
      ensures r < 0 ==> InJob(job, i) && i == job.Total() < |src|
      ensures r >= 0 ==> r == Min(|src| - i, CHUNK) && i + r <= |src| && InJob(job, i + r)
    {
      hide L.Log.View, OthersSame, Quiet, Space, Splice, Accepted, Bytes, Done, InJob;
      JobFits(job, i);
      var n1 := Min(|src| - i, CHUNK);
      ghost var b, v, tab, c := Bytes(), fs.log.View(), fs.fs.tab, fs.log.commits;
      r := WriteTrans(src[i..i + n1], job.off + job.Total());
      if r < 0 {
        JobMore(job, i, 0, b, v, tab, c);
      } else {
        JobMore(job, i, n1, b, v, tab, c);
      }
    }

    /** filewrite: chunk by chunk, each in its own transaction. The chunks add up to one write; whatever was committed
        on the way is the file with some leading chunks in place; and other files never change. */
    method Write(src: seq<byte>) returns (r: int)
      requires Quiet() && |src| <= UINT_MAX && fs.g.size <= BPB && Sized()
      requires Space(off + Accepted(ip.size, off, |src|))
      modifies fs.log, fs.log.cache, fs`fs, ip`addrs, ip`size, this`off
      ensures Quiet() && Sized()
      ensures !writable ==> r == -1 && off == old(off) && Bytes() == old(Bytes())
      ensures OthersSame(old(fs.log.View()), old(fs.fs.tab), fs.log.View(), fs.fs.tab, ip.inum)
      ensures writable ==> off == old(off) + Accepted(old(ip.size), old(off), |src|)
      ensures writable ==> r == if Accepted(old(ip.size), old(off), |src|) == |src| then |src| else -1
      ensures writable && old(off) <= old(ip.size) ==>
                && Bytes() == Splice(old(Bytes()), old(off), src[..off - old(off)])
                && Prefixes(fs.g, old(fs.log.commits), fs.log.commits, ip.inum, old(Bytes()), old(off), src)
      ensures old(off) > old(ip.size) ==> Bytes() == old(Bytes())
    {
      hide L.Log.View, OthersSame, Quiet, Space, Splice, Accepted, Bytes, Prefixes, InJob;
      if !writable {
        OthersSameRefl(fs.log.View(), fs.fs.tab, ip.inum);
        return -1;
      }
      ghost var job := Job(Bytes(), off, src, fs.log.View(), fs.fs.tab, fs.log.commits);
      AtStart(job);
      var i, ok := 0, true;
      while i < |src| && ok
        invariant i <= |src| && (i < |src| ==> i % CHUNK == 0) && (!ok ==> i == job.Total() < |src|)
        invariant InJob(job, i)
        decreases |src| - i, ok
      {
        r := WriteNext(src, i, job);
        if r < 0 {
          ok := false;
        } else {
          i := i + r;
        }
      }
      JobEnds(job, i);
      r := if i == |src| then |src| else -1;
    }
  }
}
