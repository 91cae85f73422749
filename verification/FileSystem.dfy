/** Block allocation and inode contents (fs.c), on top of the log. */
module FileSystem {
  import opened Bytes
  import opened Layout
  import opened Recovery
  import opened FsImage
  import opened FileBytes
  import opened BufferCache
  import L = Log

  /** The in-memory copy of an inode (file.h). */
  class Inode {
    const inum: nat
    var typ: ushort
    var major: ushort
    var minor: ushort
    var nlink: ushort
    var size: uint
    var addrs: seq<uint>

    constructor (inum: nat)
      ensures this.inum == inum
    {
      this.inum := inum;
    }

    function Fields(): (d: Dinode)
      reads this
    {
      Dinode(typ, major, minor, nlink, size, addrs)
    }
  }

  /** balloc's inner scan: the first clear bit among the first `n` of a bitmap block, or `n`. */
  method FindClear(data: block, n: nat) returns (bi: nat)
    requires n <= BPB
    ensures bi <= n && (bi < n ==> !BlockBit(data, bi))
    ensures forall bj: nat :: bj < bi ==> BlockBit(data, bj)
  {
    bi := 0;
    while bi < n && BlockBit(data, bi)
      invariant bi <= n
      invariant forall bj: nat :: bj < bi ==> BlockBit(data, bj)
    {
      bi := bi + 1;
    }
  }

  /** While some data block is unowned, its bit is clear. */
  lemma SomeFree(g: Geometry, owner: map<int, Slot>, extra: set<int>) returns (b: nat)
    requires g.Ok() && |owner.Keys + extra| < g.start - g.DataStart()
    ensures g.DataStart() <= b < g.start && b !in owner && b !in extra
  {
    if forall x :: g.DataStart() <= x < g.start ==> x in owner.Keys + extra {
      DistinctSize(seq(g.start - g.DataStart(), k => g.DataStart() + k), owner.Keys + extra);
      b := g.start;
      assert false;
    } else {
      b :| g.DataStart() <= b < g.start && b !in owner.Keys + extra;
    }
  }

  /** The inode table as the kernel sees it, and the owner of every allocated block. */
  datatype Files = Files(tab: seq<Dinode>, owner: map<int, Slot>)

  /** What the growth of one file changes. */
  datatype Snap = Snap(view: Image, ino: Dinode, owned: nat, pinned: set<Addr>)

  ghost function TableBlock(log: Area, d: Dinode): (s: set<Addr>)
    requires |d.addrs| == NDIRECT + 1
  {
    if d.addrs[TABLE] == 0 then {} else {log.To(d.addrs[TABLE])}
  }

  /** Position `p` of the inode got a fresh zero block, at the price of `k` allocations; no other block of the file
      moved or changed; and only bitmap blocks, the table and the new block were logged. */
  ghost predicate Grew(g: Geometry, log: Area, bitmaps: set<Addr>, s: Snap, s': Snap, p: nat, k: nat) {
    && |s.ino.addrs| == |s'.ino.addrs| == NDIRECT + 1 && p < POSITIONS
    && Kept(s.view, s.ino, s'.view, s'.ino, p)
    && Gained(s.view, s.ino, s'.view, s'.ino, p)
    && MetaSame(g, s.view, s'.view)
    && s'.owned == s.owned + k
    && s'.pinned <= s.pinned + bitmaps + TableBlock(log, s'.ino) + {log.To(At(s'.view, s'.ino, p))}
  }

  lemma GrewEntry(g: Geometry, log: Area, bitmaps: set<Addr>, s: Snap, tab: seq<Dinode>, owner: map<int, Slot>, i: nat,
                  p: nat, b: uint, v2: Image, pinned: set<Addr>)
    requires Inv(g, s.view, tab, owner, {}) && Inv(g, AllocImage(g, s.view, b), tab, owner, {b})
    requires SameFiles(s.view, AllocImage(g, s.view, b), tab) && i < |tab| && s.ino == tab[i] && TABLE < p < POSITIONS
    requires tab[i].addrs[TABLE] != 0 && At(s.view, tab[i], p) == 0 && g.DataStart() <= b
    requires v2 == EntryImage(AllocImage(g, s.view, b), tab[i].addrs[TABLE], p - TABLE - 1, b)
    requires log.To(g.BBlock(b)) in bitmaps
    requires pinned == s.pinned + {log.To(g.BBlock(b)), log.To(b)} + {log.To(tab[i].addrs[TABLE])}
    ensures Inv(g, v2, tab, owner[b := Slot(i, p)], {}) && OthersSame(s.view, tab, v2, tab, i) && At(v2, tab[i], p) == b
    ensures Grew(g, log, bitmaps, s, Snap(v2, s.ino, s.owned + 1, pinned), p, 1)
  {
    hide Inv, AllocImage, SameFiles, At, Kept, Gained, OthersSame, MetaSame, PutWord, Geometry.DataStart;
    hide Geometry.BBlock;
    var v := s.view;
    InvSuper(g, v, tab, owner, {});
    var t := tab[i].addrs[TABLE];
    TableInView(g, v, tab, owner, i);
    GrowEntry(g, v, tab, owner, i, p - TABLE - 1, b);
    MetaSameAlloc(g, v, b);
    MetaSameWrite(g, v, AllocImage(g, v, b), t, PutWord(Peek(AllocImage(g, v, b), t), p - TABLE - 1, b));
    EntryResult(g, v, tab[i], p - TABLE - 1, b, v2);
  }

  lemma GrewDirect(g: Geometry, log: Area, bitmaps: set<Addr>, s: Snap, s': Snap, tab: seq<Dinode>, i: nat, p: nat,
                   b: uint)
    requires g.Ok() && Tables(g, tab) && i < |tab| && s.ino == tab[i] && p <= TABLE && g.DataStart() <= b
    requires s' == Snap(AllocImage(g, s.view, b), WithAddr(s.ino, p, b), s.owned + 1, s'.pinned)
    requires Kept(s.view, s.ino, s'.view, s'.ino, p) && Gained(s.view, s.ino, s'.view, s'.ino, p)
    requires s'.pinned == s.pinned + {log.To(g.BBlock(b)), log.To(b)} && log.To(g.BBlock(b)) in bitmaps
    ensures Grew(g, log, bitmaps, s, s', p, 1)
  {
    hide Kept, Gained, AllocImage, MetaSame;
    MetaSameAlloc(g, s.view, b);
  }

  lemma SliceMore(s: seq<byte>, a: nat, b: nat, m: nat)
    requires a <= b && b + m <= |s|
    ensures s[a..b] + s[b..b + m] == s[a..b + m]
  {
  }

  lemma GrewParts(g: Geometry, log: Area, bitmaps: set<Addr>, s: Snap, s': Snap, p: nat, k: nat)
    requires Grew(g, log, bitmaps, s, s', p, k)
    ensures |s.ino.addrs| == |s'.ino.addrs| == NDIRECT + 1 && p < POSITIONS
    ensures Kept(s.view, s.ino, s'.view, s'.ino, p) && Gained(s.view, s.ino, s'.view, s'.ino, p)
    ensures MetaSame(g, s.view, s'.view)
    ensures s'.owned == s.owned + k
    ensures s'.pinned <= s.pinned + bitmaps + TableBlock(log, s'.ino) + {log.To(At(s'.view, s'.ino, p))}
  {
  }

  lemma GrewTwice(g: Geometry, log: Area, bitmaps: set<Addr>, s: Snap, s1: Snap, s2: Snap, p: nat)
    requires Grew(g, log, bitmaps, s, s1, TABLE, 1) && TABLE < p && Grew(g, log, bitmaps, s1, s2, p, 1)
    requires At(s.view, s.ino, p) == 0 && s2.ino.addrs[TABLE] == s1.ino.addrs[TABLE]
    ensures Grew(g, log, bitmaps, s, s2, p, 2)
  {
    KeptTrans(s.view, s.ino, s1.view, s1.ino, s2.view, s2.ino, p);
    AtDirect(s1.view, s1.ino);
    hide Kept, At;
    assert MetaSame(g, s.view, s2.view);
  }

  /** What writei's loop has used so far: `c` rounds, `k` new data blocks, and the data blocks `ds` logged. */
  datatype Tally = Tally(c: nat, k: nat, ds: set<Addr>)

  /** The state of writei's loop after `tot` bytes. */
  ghost predicate Writing(g: Geometry, log: Area, bitmaps: set<Addr>, s0: Snap, s: Snap, off: nat, src: seq<byte>,
                          tot: nat,
                          t: Tally) {
    && |s0.ino.addrs| == |s.ino.addrs| == NDIRECT + 1 && tot <= |src|
    && Written(s0.view, s0.ino, s.view, s.ino, off, src, tot)
    && MetaSame(g, s0.view, s.view)
    && (s0.ino.addrs[TABLE] != s.ino.addrs[TABLE] ==> s0.ino.addrs[TABLE] == 0 && Blocks(off + |src|) > NDIRECT)
    && |t.ds| <= t.c
    && s.pinned <= s0.pinned + bitmaps + t.ds + TableBlock(log, s.ino)
    && s.owned <= s0.owned + t.k + (if s.ino.addrs[TABLE] == s0.ino.addrs[TABLE] then 0 else 1)
  }

  /** Room for writei to log and allocate all it may need: its data blocks, the table, the inode block and the bitmap.
      */
  ghost predicate WriteBudget(g: Geometry, bitmaps: set<Addr>, inode: Addr, s: Snap, off: nat, n: nat)
    requires |s.ino.addrs| == NDIRECT + 1
  {
    && |s.pinned + bitmaps + {inode}| + 1 + Covered(off, n) <= L.MAXLOAD
    && s.owned + BlocksNeeded(s.ino, off + n) <= g.start - g.DataStart()
  }

  /** Blocks that must be allocated before the file can hold `end` bytes: data blocks, and the table if it is missing.
      */
  ghost function BlocksNeeded(d: Dinode, end: nat): (k: nat)
    requires |d.addrs| == NDIRECT + 1
  {
    GrowBy(d.size, end) + (if d.addrs[TABLE] == 0 && Blocks(end) > NDIRECT then 1 else 0)
  }

  lemma WritingBudget(g: Geometry, log: Area, bitmaps: set<Addr>, inode: Addr, s0: Snap, s: Snap, off: nat,
                      src: seq<byte>,
                      tot: nat, t: Tally)
    requires Writing(g, log, bitmaps, s0, s, off, src, tot, t)
    requires WriteBudget(g, bitmaps, inode, s0, off, |src|) && t.c < Covered(off, |src|)
    requires t.k + 1 <= GrowBy(s0.ino.size, off + |src|)
    ensures |s.pinned + bitmaps + {log.To(s.ino.addrs[TABLE])}| + 1 <= L.MAXLOAD
    ensures s.owned + 1 <= g.start - g.DataStart()
    ensures s.ino.addrs[TABLE] == 0 && Blocks(off + |src|) > NDIRECT ==>
              |s.pinned + bitmaps| + 2 <= L.MAXLOAD && s.owned + 2 <= g.start - g.DataStart()
  {
    hide Written, MetaSame, GrowBy, Covered;
    var base := s0.pinned + bitmaps;
    SubsetSize(base, base + {inode});
    var ta := log.To(s.ino.addrs[TABLE]);
    SubsetSize(s.pinned + bitmaps + {ta}, base + t.ds + {ta});
    SubsetSize(s.pinned + bitmaps, base + t.ds + TableBlock(log, s.ino));
    UnionSize(base, t.ds);
    UnionSize(base + t.ds, {ta});
  }

  lemma WritingLoad(g: Geometry, log: Area, bitmaps: set<Addr>, inode: Addr, s0: Snap, s: Snap, off: nat,
                    src: seq<byte>,
                    tot: nat, t: Tally)
    requires Writing(g, log, bitmaps, s0, s, off, src, tot, t)
    requires WriteBudget(g, bitmaps, inode, s0, off, |src|) && t.c <= Covered(off, |src|)
    ensures |s.pinned + t.ds| <= L.MAXLOAD
    ensures |s.pinned + {inode}| <= |s0.pinned + bitmaps + {inode}| + 1 + t.c <= L.MAXLOAD
  {
    hide Written, MetaSame;
    var base := s0.pinned + bitmaps + {inode};
    var all := base + t.ds + TableBlock(log, s.ino);
    SubsetSize(s.pinned + t.ds, all);
    SubsetSize(s.pinned + {inode}, all);
    UnionSize(base, t.ds);
    UnionSize(base + t.ds, TableBlock(log, s.ino));
  }

  lemma UnionSize<T>(s: set<T>, t: set<T>)
    ensures |s + t| <= |s| + |t|
  {
    assert s + t == s + (t - s);
    SubsetSize(t - s, t);
  }

  /** bmap inside the loop: nothing written so far is disturbed. */
  lemma WritingBmap(g: Geometry, log: Area, bitmaps: set<Addr>, s0: Snap, s: Snap, s1: Snap, off: nat, src: seq<byte>,
                    tot: nat, t: Tally, p: nat, k: nat)
    requires Writing(g, log, bitmaps, s0, s, off, src, tot, t)
    requires Grew(g, log, bitmaps, s, s1, p, k) && 1 <= k <= 2
    requires k == 1 ==> s1.ino.addrs[TABLE] == s.ino.addrs[TABLE]
    requires k == 2 ==> s.ino.addrs[TABLE] == 0 && s1.ino.addrs[TABLE] != 0
    requires p != TABLE && (k == 2 ==> Blocks(off + |src|) > NDIRECT)
    ensures Writing(g, log, bitmaps, s0, s1, off, src, tot,
            Tally(t.c + 1, t.k + 1, t.ds + {log.To(At(s1.view, s1.ino, p))}))
  {
    WrittenGrow(s0.view, s0.ino, s.view, s.ino, off, src, tot, s1.view, s1.ino, p);
    hide Written, Kept, Gained, At;
    UnionSize(t.ds, {log.To(At(s1.view, s1.ino, p))});
    assert MetaSame(g, s0.view, s1.view);
    hide MetaSame;
    var d := log.To(At(s1.view, s1.ino, p));
    assert s1.pinned <= s0.pinned + bitmaps + (t.ds + {d}) + TableBlock(log, s1.ino);
  }

  lemma WritingMore(g: Geometry, log: Area, bitmaps: set<Addr>, s0: Snap, s: Snap, off: nat, src: seq<byte>, tot: nat,
                    t: Tally, d: Addr)
    requires Writing(g, log, bitmaps, s0, s, off, src, tot, t)
    ensures Writing(g, log, bitmaps, s0, s, off, src, tot, Tally(t.c + 1, t.k, t.ds + {d}))
  {
    hide Written, MetaSame;
    UnionSize(t.ds, {d});
  }

  /** The copy inside the loop. */
  lemma WritingData(g: Geometry, log: Area, bitmaps: set<Addr>, s0: Snap, s: Snap, s1: Snap, off: nat, src: seq<byte>,
                    tot: nat, t: Tally, addr: uint)
    requires Writing(g, log, bitmaps, s0, s, off, src, tot, t)
    requires g.Ok() && g.DataStart() <= addr && tot < |src| && off + |src| <= MAXBYTES && log.To(addr) in t.ds
    requires var at, m := off + tot, Chunk(off, tot, |src|);
             && addr == At(s.view, s.ino, PosOf(at / BSIZE))
             && s1 == s.(view := s.view[addr := Overwrite(Peek(s.view, addr), at % BSIZE, src[tot..tot + m])],
                         pinned := s.pinned + {log.To(addr)})
             && OneBlock(s.view, s.ino, s1.view, PosOf(at / BSIZE),
                 Overwrite(Peek(s.view, addr), at % BSIZE, src[tot..tot + m]))
    ensures Writing(g, log, bitmaps, s0, s1, off, src, tot + Chunk(off, tot, |src|), t)
  {
    hide Written, Overwrite, OneBlock, At, MetaSame, Peek;
    WrittenChunk(s0.view, s0.ino, s.view, s.ino, off, src, tot, s1.view);
    MetaSameWrite(g, s0.view, s.view, addr, s1.view[addr]);
  }

  /** Device inodes are served by a driver, not by blocks. */
  const T_DEV: ushort := 3

  /** The tests writei makes before touching anything; `off + n` is computed modulo 2^32. */
  predicate WriteRefused(size: uint, off: uint, n: uint) {
    var sum: int := off + n;
    off > size || sum % (UINT_MAX + 1) < off || sum % (UINT_MAX + 1) > MAXBYTES
  }

  /** They refuse exactly the writes that start past the end or would end past the largest file. */
  lemma WriteRefusedMeans(size: uint, off: uint, n: uint)
    ensures WriteRefused(size, off, n) <==> off > size || off + n > MAXBYTES
  {
  }

  /** At most `n` sectors lie outside `base`. */
  ghost predicate Within(pinned: set<Addr>, base: set<Addr>, n: nat) {
    |pinned - base| <= n
  }

  /** What a whole writei comes to: the file's new bytes, how many sectors the transaction has logged, and how many
      blocks were allocated. */
  ghost predicate Wrote(g: Geometry, log: Area, bitmaps: set<Addr>, s0: Snap, s: Snap, inum: nat, off: nat,
                        src: seq<byte>) {
    && |s0.ino.addrs| == |s.ino.addrs| == NDIRECT + 1
    && off <= s0.ino.size <= MAXBYTES && s.ino.size <= MAXBYTES
    && s.ino == s0.ino.(addrs := s.ino.addrs, size := s.ino.size)
    && Filled(s.view, s.ino)
    && Content(s.view, s.ino) == Splice(Content(s0.view, s0.ino), off, src)
    && |s.pinned| <= |s0.pinned + bitmaps + {log.To(g.IBlock(inum))}| + 1 + Covered(off, |src|)
    && Within(s.pinned, s0.pinned + bitmaps + {log.To(g.IBlock(inum))} + TableBlock(log, s.ino), Covered(off, |src|))
    && s.owned + BlocksNeeded(s.ino, off + |src|) <= s0.owned + BlocksNeeded(s0.ino, off + |src|)
    && (s0.ino.addrs[TABLE] != s.ino.addrs[TABLE] ==> s0.ino.addrs[TABLE] == 0 && Blocks(off + |src|) > NDIRECT)
  }

  lemma WritingStart(g: Geometry, log: Area, bitmaps: set<Addr>, s: Snap, off: nat, src: seq<byte>)
    requires |s.ino.addrs| == NDIRECT + 1 && Filled(s.view, s.ino)
    ensures Writing(g, log, bitmaps, s, s, off, src, 0, Tally(0, 0, {}))
  {
    WrittenStart(s.view, s.ino, off, src);
    hide Written;
  }

  /** The loop left the disk copies of all other inodes alone. */
  lemma WritingSynced(g: Geometry, log: Area, bitmaps: set<Addr>, s0: Snap, s: Snap, off: nat, src: seq<byte>, t: Tally,
                      tab0: seq<Dinode>, tab: seq<Dinode>, i: nat)
    requires Writing(g, log, bitmaps, s0, s, off, src, |src|, t)
    requires g.Ok() && Tables(g, tab0) && OthersSame(s0.view, tab0, s.view, tab, i) && Synced(g, s0.view, tab0, -1)
    ensures Synced(g, s.view, tab, i)
    ensures i < |tab| && tab[i] == tab0[i] ==> Synced(g, s.view, tab, -1)
  {
    hide Written, SameFile;
    SyncedMeta(g, s0.view, s.view, tab0, tab, i);
    if i < |tab| && tab[i] == tab0[i] {
      SyncedMeta(g, s0.view, s.view, tab0, tab, -1);
    }
  }

  lemma FilledSize(v: Image, d: Dinode)
    requires |d.addrs| == NDIRECT + 1 && Filled(v, d)
    ensures d.size <= MAXBYTES
  {
  }

  lemma SyncedResize(g: Geometry, v: Image, tab: seq<Dinode>, i: nat, d: Dinode)
    requires Synced(g, v, tab, i) && i < |tab|
    ensures Synced(g, v, tab[i := d], i)
  {
  }

  lemma SyncedBut(g: Geometry, v: Image, tab: seq<Dinode>, i: int)
    requires Synced(g, v, tab, -1)
    ensures Synced(g, v, tab, i)
  {
  }

  lemma OthersTab(v: Image, tab: seq<Dinode>, v': Image, tab': seq<Dinode>, i: nat)
    requires OthersSame(v, tab, v', tab', i) && i < |tab|
    ensures tab' == tab[i := tab'[i]]
  {
    hide SameFile;
  }

  lemma SameFileRefl(v: Image, d: Dinode)
    requires |d.addrs| == NDIRECT + 1
    ensures SameFile(v, v, d)
  {
  }

  lemma InvResize(g: Geometry, v: Image, tab: seq<Dinode>, owner: map<int, Slot>, i: nat, d: Dinode)
    requires Inv(g, v, tab, owner, {}) && i < |tab| && d.addrs == tab[i].addrs
    ensures Inv(g, v, tab[i := d], owner, {})
  {
    var tab' := tab[i := d];
    assert |d.addrs| == NDIRECT + 1;
    forall k: nat, q: nat | k < |tab| && q < POSITIONS ensures At(v, tab'[k], q) == At(v, tab[k], q) {
    }
    hide At;
    assert References(v, tab', owner);
    forall b | b in owner ensures Referenced(g, v, tab', owner[b], b) {
      assert Referenced(g, v, tab, owner[b], b);
    }
  }

  lemma ResizeOthers(v0: Image, tab0: seq<Dinode>, v: Image, tab: seq<Dinode>, v': Image, tab': seq<Dinode>, i: nat,
                     d: Dinode)
    requires OthersSame(v0, tab0, v, tab, i) && i < |tab| && tab' == tab[i := d] && SameFiles(v, v', tab')
    requires |d.addrs| == NDIRECT + 1
    ensures OthersSame(v0, tab0, v', tab', i) && SameFile(v, v', d)
  {
    hide SameFile;
    assert tab'[i] == d;
    assert OthersSame(v, tab, v', tab', i) by {
      forall k | 0 <= k < |tab| && k != i && |tab[k].addrs| == NDIRECT + 1 ensures SameFile(v, v', tab[k]) {
        assert tab'[k] == tab[k];
      }
    }
    OthersSameTrans(v0, tab0, v, tab, v', tab', i);
  }

  lemma WroteLogs(p0: set<Addr>, bitmaps: set<Addr>, inode: set<Addr>, table: set<Addr>, ds: set<Addr>, p1: set<Addr>,
                  p2: set<Addr>)
    requires p1 <= p0 + bitmaps + ds + table && p2 <= p1 + inode
    ensures |p2| <= |p0 + bitmaps + inode| + |table| + |ds|
    ensures Within(p2, p0 + bitmaps + inode + table, |ds|)
  {
    var base := p0 + bitmaps + inode;
    SubsetSize(p2, base + ds + table);
    UnionSize(base, ds);
    UnionSize(base + ds, table);
    SubsetSize(p2 - (base + table), ds);
  }

  lemma WroteFrom(g: Geometry, log: Area, bitmaps: set<Addr>, s0: Snap, s1: Snap, s2: Snap, inum: nat, off: nat,
                  src: seq<byte>,
                  t: Tally)
    requires Writing(g, log, bitmaps, s0, s1, off, src, |src|, t)
    requires t.c <= Covered(off, |src|) && t.k <= GrowBy(s0.ino.size, off + |src|)
    requires off <= s0.ino.size <= MAXBYTES && off + |src| <= MAXBYTES
    requires s2.ino == s1.ino.(size := if off + |src| > s0.ino.size then off + |src| else s0.ino.size)
    requires SameFile(s1.view, s2.view, s2.ino) && s2.pinned <= s1.pinned + {log.To(g.IBlock(inum))}
             && s2.owned == s1.owned
    ensures Wrote(g, log, bitmaps, s0, s2, inum, off, src)
  {
    WrittenContent(s0.view, s0.ino, s1.view, s1.ino, off, src);
    hide Written, Content, Splice, Filled, SameFile, MetaSame, Covered;
    SameFileSameContent(s1.view, s2.view, s2.ino);
    WroteLogs(s0.pinned, bitmaps, {log.To(g.IBlock(inum))}, TableBlock(log, s1.ino), t.ds, s1.pinned, s2.pinned);
  }

  lemma CoveredNone(off: nat)
    ensures Covered(off, 0) == 0
  {
  }

  /** A block that starts within the old size is already there. */
  lemma WritingAllocated(g: Geometry, log: Area, bitmaps: set<Addr>, s0: Snap, s: Snap, off: nat, src: seq<byte>,
                         tot: nat,
                         t: Tally, bn: nat)
    requires Writing(g, log, bitmaps, s0, s, off, src, tot, t) && bn < Blocks(s0.ino.size) && bn < MAXFILE
    ensures At(s.view, s.ino, PosOf(bn)) != 0
  {
    var k := bn * BSIZE;
    assert k / BSIZE == bn;
    assert Holds(s.view, s.ino, k, Expected(s0.view, s0.ino, off, src, tot, k));
  }

  /** Only bitmap blocks differ. */
  ghost predicate SameBlocks(g: Geometry, v: Image, v': Image) {
    forall s: nat :: s < g.BBlock(0) || s >= g.DataStart() ==> Peek(v', s) == Peek(v, s)
  }

  lemma SameBlocksMark(g: Geometry, v: Image, v': Image, b: nat, on: bool)
    requires g.Ok() && b < g.size && SameBlocks(g, v, v')
    ensures SameBlocks(g, v, MarkBit(g, v', b, on))
  {
    BitmapRegion(g, b);
    hide PutBit;
  }

  lemma NextPosition(g: Geometry, v: Image, tab: seq<Dinode>, owner: map<int, Slot>, i: nat, lo: nat, hi: nat)
    requires Inv(g, v, tab, owner, {}) && i < |tab| && |tab[i].addrs| == NDIRECT + 1 && lo < hi <= POSITIONS
    ensures At(v, tab[i], lo) == 0 ==> AtSet(v, tab[i], lo, hi) == AtSet(v, tab[i], lo + 1, hi)
    ensures At(v, tab[i], lo) != 0 ==>
              && At(v, tab[i], lo) in AtSet(v, tab[i], lo, hi)
              && AtSet(v, tab[i], lo, hi) - {At(v, tab[i], lo)} == AtSet(v, tab[i], lo + 1, hi)
  {
    AtSetNext(g, v, tab, owner, i, lo, hi);
  }

  class FileSystem {
    const log: L.Log
    const g: Geometry
    ghost var fs: Files

    /** Mounting a disk whose recovered image is consistent. */
    constructor (log: L.Log, g: Geometry, ghost fs: Files)
      requires log.Valid() && log.pending == {} && log.cache.Held() == {}
      requires log.area.start == g.start && log.area.size >= LOGSIZE && Inv(g, log.View(), fs.tab, fs.owner, {})
      ensures this.log == log && this.g == g && this.fs == fs && Ready({})
      ensures log.commits == [log.View()] && Synced(g, log.View(), fs.tab, -1) ==> Committed()
    {
      this.log := log;
      this.g := g;
      this.fs := fs;
      new;
      hide L.Log.Valid, L.Log.View, Cache.Held, Inv, Synced;
    }

    /** Every image committed so far is consistent. */
    ghost predicate Committed()
      reads this, log
    {
      forall k :: 0 <= k < |log.commits| ==> Consistent(g, log.commits[k])
    }

    /** The log is sound, its view is a consistent image, and nobody holds a buffer of an unallocated block. */
    ghost predicate Ready(extra: set<int>)
      reads this, log, log.cache
    {
      && log.Valid() && log.pending == {}
      && log.area.start == g.start && log.area.size >= LOGSIZE
      && Inv(g, log.View(), fs.tab, fs.owner, extra)
      && (forall a :: a in log.cache.Held() ==> a.sector in fs.owner || a.sector in extra)
    }

    lemma ReadyFacts(extra: set<int>)
      requires Ready(extra)
      ensures g.Ok() && Tables(g, fs.tab)
    {
    }

    /** Buffers held or pinned. */
    ghost function Load(): set<Addr>
      reads log, log.cache
    {
      log.cache.Held() + log.cache.Pinned()
    }

    ghost function Bitmaps(): set<Addr>
    {
      set b | 0 <= b < g.size :: log.area.To(g.BBlock(b))
    }

    lemma NothingLogged()
      requires Ready({}) && !log.busy
      ensures log.cache.Pinned() == {} && |log.cache.Pinned()| < NBUF
    {
      hide Cache.Held, Cache.Pinned, Cache.Valid, Inv;
      L.NoTargets(log.area, log.Logged());
    }

    /** begin_trans: the new transaction has logged nothing. */
    method Begin()
      requires Ready({}) && !log.busy && log.cache.Held() == {}
      modifies log`busy
      ensures Ready({}) && log.busy && log.cache.Held() == {} && log.cache.Pinned() == {}
      ensures log.View() == old(log.View())
    {
      hide Cache.Held, Cache.Pinned, Inv, Cache.Valid;
      L.NoTargets(log.area, log.Logged());
      var sleeps := log.BeginTrans();
    }

    /** commit_trans */
    method Commit()
      requires Ready({}) && log.busy && log.cache.Held() == {} && |log.cache.Pinned()| < NBUF
      modifies log, log.cache
      ensures Ready({}) && !log.busy && log.cache.Held() == {} && log.View() == old(log.View())
      ensures log.commits == old(log.commits) || log.commits == old(log.commits) + [log.View()]
      ensures old(Committed() && Synced(g, log.View(), fs.tab, -1)) ==> Committed()
    {
      hide Cache.Held, Cache.Pinned, Inv, L.Log.Valid, L.Log.View, Synced;
      log.LoggedSize();
      log.CommitTrans();
    }

    /** readsb: the two super block fields balloc and bfree use. */
    method Readsb(ghost extra: set<int>) returns (size: nat, ninodes: nat)
      requires Ready(extra) && |Load()| <= L.MAXLOAD
      modifies log.cache
      ensures Ready(extra) && size == g.size && ninodes == g.ninodes
      ensures log.View() == old(log.View())
      ensures log.cache.Held() == old(log.cache.Held()) && log.cache.Pinned() == old(log.cache.Pinned())
      ensures forall c: nat, x :: old(log.cache.Holds(c, x)) ==> log.cache.Holds(c, x)
    {
      hide L.Log.Valid, L.Log.View, Cache.Held, Cache.Pinned;
      InvSuper(g, log.View(), fs.tab, fs.owner, extra);
      var d := log.ReadBlock(1);
      size, ninodes := Word(d, 0), Word(d, 2);
    }

    /** bzero, on a block that balloc has just marked. */
    method Bzero(b: nat)
      requires log.Valid() && log.busy && log.pending == {} && log.area.start == g.start <= UINT_MAX
               && log.area.size >= LOGSIZE
      requires b in log.View() && log.area.To(b) !in log.cache.Held() && |Load() + {log.area.To(b)}| <= L.MAXLOAD
      modifies log, log.cache
      ensures log.Valid() && log.busy && log.pending == {} && log.commits == old(log.commits)
      ensures log.View() == old(log.View())[b := ZeroBlock()]
      ensures log.cache.Held() == old(log.cache.Held())
              && log.cache.Pinned() == old(log.cache.Pinned()) + {log.area.To(b)}
      ensures forall c: nat, x :: old(log.cache.Holds(c, x)) ==> log.cache.Holds(c, x)
    {
      hide L.Log.Valid, L.Log.View, Cache.Held, Cache.Pinned, ZeroBlock;
      log.ViewDomain(b);
      var bp := log.Get(b);
      assert log.cache.Held() + log.cache.Pinned() == old(Load()) + {log.area.To(b)};
      log.LogAndRelease(bp, b, ZeroBlock());
    }

    /** balloc: the lowest free block, marked and zeroed. */
    method Balloc(ghost extra: set<int>) returns (b: uint)
      requires Ready(extra) && log.busy && |Load() + Bitmaps()| + 1 <= L.MAXLOAD
      requires |fs.owner.Keys + extra| < g.start - g.DataStart()
      modifies log, log.cache
      ensures Ready(extra + {b}) && log.busy && log.commits == old(log.commits)
      ensures 0 < g.DataStart() <= b < g.start <= g.size && b !in fs.owner && b !in extra
      ensures log.View() == AllocImage(g, old(log.View()), b) && SameFiles(old(log.View()), log.View(), fs.tab)
      ensures forall x: nat :: x < b ==> Used(g, old(log.View()), x)
      ensures log.cache.Held() == old(log.cache.Held())
      ensures log.cache.Pinned() == old(log.cache.Pinned()) + {log.area.To(g.BBlock(b)), log.area.To(b)}
      ensures forall c: nat, x :: old(log.cache.Holds(c, x)) ==> log.cache.Holds(c, x)
    {
      hide L.Log.Valid, L.Log.View, Cache.Held, Cache.Pinned, Inv, Used, AllocImage, MarkBit, SameFiles,
           Geometry.DataStart,
           Geometry.BBlock, Bitmaps;
      InvSuper(g, log.View(), fs.tab, fs.owner, extra);
      ghost var free := SomeFree(g, fs.owner, extra);
      InvFree(g, log.View(), fs.tab, fs.owner, extra, free);
      ghost var v, most := log.View(), Load() + Bitmaps();
      var r := FindAndMark(free, extra);
      SubsetSize(Load() + {log.area.To(r)}, most + {log.area.To(r)});
      b := FinishAlloc(r, v, free, extra);
    }

    /** balloc's outer loop: mark the lowest free block; there is one no higher than `free`. */
    method FindAndMark(ghost free: nat, ghost extra: set<int>) returns (r: nat)
      requires Ready(extra) && log.busy && |Load() + Bitmaps()| <= L.MAXLOAD
      requires free < g.start && !Used(g, log.View(), free)
      modifies log, log.cache
      ensures log.Valid() && log.busy && log.pending == {} && log.commits == old(log.commits)
      ensures log.cache.Held() == old(log.cache.Held())
      ensures forall c: nat, x :: old(log.cache.Holds(c, x)) ==> log.cache.Holds(c, x)
      ensures r < g.size && !Used(g, old(log.View()), r) && log.View() == MarkBit(g, old(log.View()), r, true)
      ensures forall x: nat :: x < r ==> Used(g, old(log.View()), x)
      ensures log.area.To(g.BBlock(r)) in Bitmaps()
      ensures log.cache.Pinned() == old(log.cache.Pinned()) + {log.area.To(g.BBlock(r))}
    {
      hide L.Log.Valid, L.Log.View, Cache.Held, Cache.Pinned, Inv, Used, MarkBit, Geometry.DataStart, Geometry.BBlock;
      InvSuper(g, log.View(), fs.tab, fs.owner, extra);
      ghost var v := log.View();
      SubsetSize(Load(), Load() + Bitmaps());
      var size, ninodes := Readsb(extra);
      var start: nat, found := 0, false;
      r := 0;
      while !found && start < size
        invariant start % BPB == 0
        invariant log.Valid() && log.busy && log.pending == {} && log.commits == old(log.commits)
        invariant log.cache.Held() == old(log.cache.Held())
        invariant forall c: nat, x :: old(log.cache.Holds(c, x)) ==> log.cache.Holds(c, x)
        invariant !found ==> log.View() == v && log.cache.Pinned() == old(log.cache.Pinned())
        invariant !found ==> start <= free < size && forall x: nat :: x < start && x < size ==> Used(g, v, x)
        invariant found ==> r < size && !Used(g, v, r) && log.View() == MarkBit(g, v, r, true)
        invariant found ==> log.cache.Pinned() == old(log.cache.Pinned()) + {log.area.To(g.BBlock(r))}
        invariant found ==> forall x: nat :: x < r ==> Used(g, v, x)
        decreases !found, size - start
      {
        found, r := ScanBitmap(start, size, extra);
        if !found {
          start := start + BPB;
        }
      }
    }

    /** The rest of balloc once bit `r`, the lowest clear one, has been set. */
    method FinishAlloc(r: nat, ghost v: Image, ghost free: nat, ghost extra: set<int>) returns (b: uint)
      requires log.Valid() && log.busy && log.pending == {} && log.area.start == g.start && log.area.size >= LOGSIZE
      requires Inv(g, v, fs.tab, fs.owner, extra)
      requires forall a :: a in log.cache.Held() ==> a.sector in fs.owner || a.sector in extra
      requires log.View() == MarkBit(g, v, r, true) && !Used(g, v, r)
      requires free < g.start && !Used(g, v, free) && forall x: nat :: x < r ==> Used(g, v, x)
      requires |Load() + {log.area.To(r)}| <= L.MAXLOAD
      modifies log, log.cache
      ensures b == r
      ensures Ready(extra + {b}) && log.busy && log.commits == old(log.commits)
      ensures 0 < g.DataStart() <= b < g.start <= g.size && b !in fs.owner && b !in extra
      ensures log.View() == AllocImage(g, v, b) && SameFiles(v, log.View(), fs.tab)
      ensures log.cache.Held() == old(log.cache.Held())
      ensures log.cache.Pinned() == old(log.cache.Pinned()) + {log.area.To(b)}
      ensures forall c: nat, x :: old(log.cache.Holds(c, x)) ==> log.cache.Holds(c, x)
    {
      hide L.Log.Valid, L.Log.View, Cache.Held, Cache.Pinned, Inv, Used, MarkBit, SameFiles, Geometry.DataStart,
           Geometry.BBlock;
      assert r <= free;
      AllocKeeps(g, v, fs.tab, fs.owner, extra, r);
      InvDomain(g, v, fs.tab, fs.owner, extra, r);
      Bzero(r);
      b := r;
    }

    /** `ip` is the kernel's current copy of its inode. */
    ghost predicate Tied(ip: Inode)
      reads this, ip
    {
      ip.inum < |fs.tab| && fs.tab[ip.inum] == ip.Fields() && |ip.addrs| == NDIRECT + 1
    }

    /** There is room in the cache, the log and the bitmap to allocate `k` more blocks. */
    ghost predicate CanAllocate(k: nat, more: set<Addr>)
      reads this, log, log.cache
    {
      && log.busy
      && |Load() + Bitmaps() + more| + k <= L.MAXLOAD
      && |fs.owner| + k <= g.start - g.DataStart()
    }

    ghost function Now(ip: Inode): (s: Snap)
      reads this, log, log.cache, ip
    {
      Snap(log.View(), ip.Fields(), |fs.owner|, log.cache.Pinned())
    }

    /** A direct position, or that of the table, gets a new block. */
    method AllocAddr(ip: Inode, p: nat)
      requires Ready({}) && log.cache.Held() == {} && Tied(ip) && p <= TABLE && ip.addrs[p] == 0
      requires CanAllocate(1, {})
      modifies log, log.cache, this`fs, ip`addrs
      ensures Ready({}) && log.cache.Held() == {} && Tied(ip)
      ensures log.busy && log.commits == old(log.commits)
      ensures ip.addrs[p] != 0 && ip.addrs == old(ip.addrs)[p := ip.addrs[p]]
      ensures Grew(g, log.area, Bitmaps(), old(Now(ip)), Now(ip), p, 1)
      ensures OthersSame(old(log.View()), old(fs.tab), log.View(), fs.tab, ip.inum)
    {
      hide L.Log.Valid, L.Log.View, Cache.Held, Cache.Pinned, Inv, AllocImage, SameFiles, Geometry.DataStart,
           Geometry.BBlock, OthersSame, Bitmaps, Grew, Kept, Gained, At;
      assert fs.owner.Keys + {} == fs.owner.Keys;
      assert Load() + Bitmaps() + {} == Load() + Bitmaps();
      InvSuper(g, log.View(), fs.tab, fs.owner, {});
      ghost var s, tab := Now(ip), fs.tab;
      var b := Balloc({});
      BitmapsHave(b);
      assert {} + {b} == {b};
      GrowDirect(g, s.view, tab, fs.owner, ip.inum, p, b);
      ghost var s' := Snap(log.View(), WithAddr(s.ino, p, b), s.owned + 1, log.cache.Pinned());
      GrewDirect(g, log.area, Bitmaps(), s, s', tab, ip.inum, p, b);
      SetAddr(ip, p, b, fs.owner[b := Slot(ip.inum, p)]);
    }

    /** The inode's position `p` gets block `b`. */
    method SetAddr(ip: Inode, p: nat, b: uint, ghost owner: map<int, Slot>)
      requires Tied(ip) && p <= TABLE && log.Valid() && log.pending == {} && log.cache.Held() == {}
      requires log.area.start == g.start && log.area.size >= LOGSIZE
      requires Inv(g, log.View(), fs.tab[ip.inum := WithAddr(ip.Fields(), p, b)], owner, {})
      modifies this`fs, ip`addrs
      ensures Ready({}) && Tied(ip) && ip.addrs == old(ip.addrs)[p := b]
              && ip.Fields() == old(WithAddr(ip.Fields(), p, b))
      ensures fs == Files(old(fs.tab)[ip.inum := ip.Fields()], owner)
    {
      hide L.Log.Valid, L.Log.View, Cache.Held, Inv;
      ip.addrs := ip.addrs[p := b];
      fs := Files(fs.tab[ip.inum := ip.Fields()], owner);
    }

    /** Entry `j` of the table in hand becomes `b`. */
    method LogEntry(bp: nat, t: nat, j: nat, b: uint)
      requires log.Valid() && log.busy && log.pending == {} && log.area.size >= LOGSIZE
      requires t < log.area.start <= UINT_MAX
      requires log.cache.Holds(bp, log.area.To(t)) && |Load()| <= L.MAXLOAD && j < NINDIRECT
      modifies log, log.cache
      ensures log.Valid() && log.busy && log.pending == {} && log.commits == old(log.commits)
      ensures log.View() == EntryImage(old(log.View()), t, j, b)
      ensures log.cache.Held() == old(log.cache.Held()) - {log.area.To(t)}
      ensures log.cache.Pinned() == old(log.cache.Pinned()) + {log.area.To(t)}
    {
      hide L.Log.Valid, L.Log.View, Cache.Held, Cache.Pinned, PutWord;
      log.HeldView(bp, t);
      log.LogAndRelease(bp, t, PutWord(log.cache.bufs[bp].data, j, b));
    }

    /** bmap with the indirect table in hand: an entry that is missing gets a new block, and the table is logged. */
    method EnsureEntry(ip: Inode, p: nat) returns (addr: uint)
      requires Ready({}) && log.cache.Held() == {} && Tied(ip) && TABLE < p < POSITIONS && ip.addrs[TABLE] != 0
      requires |log.cache.Pinned()| < NBUF
      requires At(log.View(), ip.Fields(), p) == 0 ==> CanAllocate(1, {log.area.To(ip.addrs[TABLE])})
      modifies log, log.cache, this`fs
      ensures Ready({}) && log.cache.Held() == {} && Tied(ip)
      ensures log.busy == old(log.busy) && log.commits == old(log.commits)
      ensures addr == At(log.View(), ip.Fields(), p) != 0
      ensures if At(old(log.View()), ip.Fields(), p) != 0
              then Now(ip) == old(Now(ip)) && fs == old(fs)
              else Grew(g, log.area, Bitmaps(), old(Now(ip)), Now(ip), p, 1)
      ensures OthersSame(old(log.View()), old(fs.tab), log.View(), fs.tab, ip.inum)
    {
      hide L.Log.Valid, L.Log.View, Cache.Held, Cache.Pinned, Inv, AllocImage, SameFiles, Geometry.DataStart,
           Geometry.BBlock, Grew, OthersSame, Bitmaps, Word;
      var t := ip.addrs[TABLE];
      TableInView(g, log.View(), fs.tab, fs.owner, ip.inum);
      var bp := log.Get(t);
      addr := Word(log.cache.bufs[bp].data, p - TABLE - 1);
      if addr == 0 {
        assert Load() + Bitmaps() + {} == old(Load()) + Bitmaps() + {log.area.To(t)};
        addr := AllocEntry(ip, p, bp);
      } else {
        log.Brelse(bp, log.area.To(t));
        OthersSameRefl(log.View(), fs.tab, ip.inum);
      }
    }

    /** The allocating branch, holding the table's buffer `bp` throughout. */
    method AllocEntry(ip: Inode, p: nat, bp: nat) returns (addr: uint)
      requires Ready({}) && Tied(ip) && TABLE < p < POSITIONS && ip.addrs[TABLE] != 0
      requires log.cache.Held() == {log.area.To(ip.addrs[TABLE])} && log.cache.Holds(bp, log.area.To(ip.addrs[TABLE]))
      requires At(log.View(), ip.Fields(), p) == 0
      requires CanAllocate(1, {})
      modifies log, log.cache, this`fs
      ensures Ready({}) && log.cache.Held() == {} && Tied(ip)
      ensures log.busy && log.commits == old(log.commits)
      ensures addr == At(log.View(), ip.Fields(), p) != 0
      ensures Grew(g, log.area, Bitmaps(), old(Now(ip)), Now(ip), p, 1)
      ensures OthersSame(old(log.View()), old(fs.tab), log.View(), fs.tab, ip.inum)
    {
      hide L.Log.Valid, L.Log.View, Cache.Held, Cache.Pinned, Inv, AllocImage, SameFiles, Geometry.DataStart,
           Geometry.BBlock, Grew, OthersSame, Bitmaps, Word, EntryImage;
      ghost var v, most := log.View(), Load() + Bitmaps();
      var t := ip.addrs[TABLE];
      TableInView(g, v, fs.tab, fs.owner, ip.inum);
      assert fs.owner.Keys + {} == fs.owner.Keys;
      assert Load() + Bitmaps() + {} == most;
      addr := Balloc({});
      BitmapsHave(addr);
      assert {} + {addr} == {addr};
      SubsetSize(Load(), most + {log.area.To(addr)});
      LogEntry(bp, t, p - TABLE - 1, addr);
      GrewEntry(g, log.area, Bitmaps(), old(Now(ip)), fs.tab, fs.owner, ip.inum, p, addr, log.View(),
                log.cache.Pinned());
      fs := Files(fs.tab, fs.owner[addr := Slot(ip.inum, p)]);
    }

    /** bmap when the indirect table is missing: two blocks are allocated. */
    method BmapNewTable(ip: Inode, p: nat) returns (addr: uint)
      requires Ready({}) && log.cache.Held() == {} && Tied(ip) && TABLE < p < POSITIONS && ip.addrs[TABLE] == 0
      requires CanAllocate(2, {})
      modifies log, log.cache, this`fs, ip`addrs
      ensures Ready({}) && log.cache.Held() == {} && Tied(ip)
      ensures log.busy && log.commits == old(log.commits)
      ensures ip.addrs[TABLE] != 0 && addr == At(log.View(), ip.Fields(), p) != 0
      ensures Grew(g, log.area, Bitmaps(), old(Now(ip)), Now(ip), p, 2)
      ensures OthersSame(old(log.View()), old(fs.tab), log.View(), fs.tab, ip.inum)
    {
      hide Ready, Cache.Held, Cache.Pinned, L.Log.View, OthersSame, Bitmaps, At, Grew;
      ghost var most, s := Load() + Bitmaps() + {}, Now(ip);
      AllocAddr(ip, TABLE);
      ghost var t, s1, v1, tab1 := log.area.To(ip.addrs[TABLE]), Now(ip), log.View(), fs.tab;
      GrewParts(g, log.area, Bitmaps(), s, s1, TABLE, 1);
      AtDirect(log.View(), ip.Fields());
      SubsetSize(log.cache.Pinned(), most + {t});
      SubsetSize(Load() + Bitmaps() + {t}, most + {t});
      NewTableEmpty(s.view, s.ino, s1.view, s1.ino, p - TABLE - 1);
      addr := EnsureEntry(ip, p);
      OthersSameTrans(old(log.View()), old(fs.tab), v1, tab1, log.View(), fs.tab, ip.inum);
      GrewTwice(g, log.area, Bitmaps(), s, s1, Now(ip), p);
    }

    /** bmap: the block holding the file's `bn`-th block, allocated (with the table, if that is missing too) on demand.
        */
    method Bmap(ip: Inode, bn: nat) returns (addr: uint)
      requires Ready({}) && log.cache.Held() == {} && Tied(ip) && bn < MAXFILE
      requires |log.cache.Pinned()| < NBUF
      requires At(log.View(), ip.Fields(), PosOf(bn)) == 0 ==> CanAllocate(1, {log.area.To(ip.addrs[TABLE])})
      requires ip.addrs[TABLE] == 0 && bn >= NDIRECT ==> CanAllocate(2, {})
      modifies log, log.cache, this`fs, ip`addrs
      ensures Ready({}) && log.cache.Held() == {} && Tied(ip)
      ensures log.busy == old(log.busy) && log.commits == old(log.commits)
      ensures addr == At(log.View(), ip.Fields(), PosOf(bn)) != 0
      ensures if At(old(log.View()), old(ip.Fields()), PosOf(bn)) != 0
              then Now(ip) == old(Now(ip)) && fs == old(fs)
              else Grew(g, log.area, Bitmaps(), old(Now(ip)), Now(ip), PosOf(bn),
                  if old(ip.addrs[TABLE]) == ip.addrs[TABLE] then 1 else 2)
      ensures old(ip.addrs[TABLE]) == ip.addrs[TABLE] || (old(ip.addrs[TABLE]) == 0 && bn >= NDIRECT)
      ensures OthersSame(old(log.View()), old(fs.tab), log.View(), fs.tab, ip.inum)
    {
      hide Ready, Cache.Held, Cache.Pinned, L.Log.View, OthersSame, Bitmaps, At, Grew;
      AtDirect(log.View(), ip.Fields());
      var p := PosOf(bn);
      if bn < NDIRECT {
        if ip.addrs[p] == 0 {
          SubsetSize(Load() + Bitmaps() + {}, Load() + Bitmaps() + {log.area.To(ip.addrs[TABLE])});
          AllocAddr(ip, p);
          AtDirect(log.View(), ip.Fields());
        } else {
          OthersSameRefl(log.View(), fs.tab, ip.inum);
        }
        addr := ip.addrs[p];
      } else if ip.addrs[TABLE] == 0 {
        addr := BmapNewTable(ip, p);
      } else {
        addr := EnsureEntry(ip, p);
      }
    }

    /** bfree: clear the block's bit. */
    method Bfree(b: nat, ghost extra: set<int>)
      requires Ready(extra) && log.busy && b in extra && (forall a :: a in log.cache.Held() ==> a.sector != b)
      requires |Load() + Bitmaps()| <= L.MAXLOAD
      modifies log, log.cache
      ensures Ready(extra - {b}) && log.busy && log.commits == old(log.commits)
      ensures log.View() == MarkBit(g, old(log.View()), b, false)
      ensures log.cache.Held() == old(log.cache.Held())
      ensures log.cache.Pinned() <= old(log.cache.Pinned()) + Bitmaps()
      ensures forall c: nat, x :: old(log.cache.Holds(c, x)) ==> log.cache.Holds(c, x)
    {
      hide L.Log.Valid, L.Log.View, Cache.Held, Cache.Pinned, PutBit, BlockBit, Inv, Used, SameFiles, Bitmaps,
           Geometry.BBlock,
           MarkBit;
      InvExtra(g, log.View(), fs.tab, fs.owner, extra, b);
      InvBitmap(g, log.View(), fs.tab, fs.owner, extra, b);
      FreeKeeps(g, log.View(), fs.tab, fs.owner, extra, b);
      BitmapsHave(b);
      SubsetSize(Load(), Load() + Bitmaps());
      SubsetSize(Load() + {log.area.To(g.BBlock(b))}, Load() + Bitmaps());
      ghost var v := log.View();
      var size, ninodes := Readsb(extra);
      var s := g.BBlock(b);
      var bp := log.Get(s);
      assert log.cache.Held() + log.cache.Pinned() == old(Load()) + {log.area.To(s)};
      MarkBitIs(g, v, b, false);
      log.LogAndRelease(bp, s, PutBit(log.cache.bufs[bp].data, b % BPB, false));
    }

    /** The blocks of `ip` that itrunc still has to free, as left over from image `v` and inode `d`. */
    ghost predicate Truncating(v: Image, d: Dinode, i: nat, owner: map<int, Slot>, tab: seq<Dinode>, rest: set<int>)
      reads this, log, log.cache
    {
      && i < |tab| && Inv(g, v, tab, owner, {}) && tab[i] == d
      && fs == Files(tab[i := Emptied(d)], owner - BlocksOf(owner, i))
      && Ready(rest) && log.busy
      && SameBlocks(g, v, log.View())
      && |Load() + Bitmaps()| <= L.MAXLOAD
    }

    /** itrunc's first loop: free the direct blocks. */
    method FreeDirect(ip: Inode, ghost v: Image, ghost d: Dinode, ghost owner: map<int, Slot>, ghost tab: seq<Dinode>)
      requires ip.Fields() == d && |d.addrs| == NDIRECT + 1 && log.cache.Held() == {}
      requires Truncating(v, d, ip.inum, owner, tab, AtSet(v, d, 0, POSITIONS))
      modifies log, log.cache, ip`addrs
      ensures Truncating(v, d, ip.inum, owner, tab, AtSet(v, d, NDIRECT, POSITIONS))
      ensures log.cache.Held() == {} && log.commits == old(log.commits)
      ensures log.cache.Pinned() <= old(log.cache.Pinned()) + Bitmaps()
      ensures |ip.addrs| == NDIRECT + 1 && ip.addrs[TABLE] == d.addrs[TABLE] && forall k :: 0 <= k < NDIRECT ==>
              ip.addrs[k] == 0
    {
      hide Ready, Cache.Held, Cache.Pinned, L.Log.View, Inv, At, AtSet, MarkBit, SameBlocks, Bitmaps, BlocksOf, Emptied;
      AtDirect(v, d);
      var i := 0;
      while i < NDIRECT
        invariant i <= NDIRECT && |ip.addrs| == NDIRECT + 1
        invariant Truncating(v, d, ip.inum, owner, tab, AtSet(v, d, i, POSITIONS))
        invariant log.cache.Held() == {} && log.commits == old(log.commits)
        invariant log.cache.Pinned() <= old(log.cache.Pinned()) + Bitmaps()
        invariant forall k :: 0 <= k < i ==> ip.addrs[k] == 0
        invariant forall k :: i <= k <= TABLE ==> ip.addrs[k] == d.addrs[k]
      {
        NextPosition(g, v, tab, owner, ip.inum, i, POSITIONS);
        if ip.addrs[i] != 0 {
          FreeOne(ip.addrs[i], v, d, ip.inum, owner, tab, AtSet(v, d, i, POSITIONS));
          ip.addrs := ip.addrs[i := 0];
        }
        i := i + 1;
      }
    }

    /** itrunc reads the indirect table. */
    method GetTable(t: nat, ghost v: Image, ghost d: Dinode, ghost i: nat, ghost owner: map<int, Slot>,
                    ghost tab: seq<Dinode>,
                    ghost rest: set<int>)
      returns (bp: nat, a: block)
      requires Truncating(v, d, i, owner, tab, rest) && t in rest && log.cache.Held() == {}
      requires |d.addrs| == NDIRECT + 1 && d.addrs[TABLE] == t != 0
      requires |Load() + Bitmaps() + {log.area.To(t)}| <= L.MAXLOAD
      modifies log.cache
      ensures Truncating(v, d, i, owner, tab, rest)
      ensures log.cache.Held() == {log.area.To(t)} && log.cache.Pinned() == old(log.cache.Pinned())
      ensures log.cache.Holds(bp, log.area.To(t)) && log.commits == old(log.commits)
      ensures forall j: nat :: j < NINDIRECT ==> Word(a, j) == At(v, d, TABLE + 1 + j)
    {
      hide L.Log.Valid, Cache.Held, Cache.Pinned, L.Log.View, Inv, At, SameBlocks, Bitmaps, BlocksOf, Emptied, Word;
      ghost var ta := log.area.To(t);
      TableStays(g, v, tab, owner, i, log.View(), fs, rest);
      assert Load() + {ta} <= Load() + Bitmaps() + {ta};
      SubsetSize(Load() + {ta}, Load() + Bitmaps() + {ta});
      bp := log.Get(t);
      a := log.cache.bufs[bp].data;
      assert Load() + Bitmaps() == old(Load()) + Bitmaps() + {ta};
    }

    /** The table is released once its entries are freed. */
    method DropTable(t: nat, bp: nat, ghost v: Image, ghost d: Dinode, ghost i: nat, ghost owner: map<int, Slot>,
                     ghost tab: seq<Dinode>)
      requires Truncating(v, d, i, owner, tab, {t})
      requires log.cache.Held() == {log.area.To(t)} && log.cache.Holds(bp, log.area.To(t))
      modifies log.cache
      ensures Truncating(v, d, i, owner, tab, {t})
      ensures log.cache.Held() == {} && log.cache.Pinned() == old(log.cache.Pinned()) && log.commits == old(log.commits)
    {
      hide L.Log.Valid, Cache.Held, Cache.Pinned, L.Log.View, Inv, SameBlocks, Bitmaps, BlocksOf, Emptied;
      log.Brelse(bp, log.area.To(t));
      SubsetSize(Load() + Bitmaps(), old(Load()) + Bitmaps());
    }

    /** itrunc's second loop, holding the table's buffer. */
    method FreeEntries(t: nat, ghost v: Image, ghost d: Dinode, ghost i: nat, ghost owner: map<int, Slot>,
                       ghost tab: seq<Dinode>)
      requires |d.addrs| == NDIRECT + 1 && d.addrs[TABLE] == t != 0 && log.cache.Held() == {}
      requires Truncating(v, d, i, owner, tab, AtSet(v, d, TABLE, POSITIONS))
      requires |Load() + Bitmaps() + {log.area.To(t)}| <= L.MAXLOAD
      modifies log, log.cache
      ensures Truncating(v, d, i, owner, tab, {t})
      ensures log.cache.Held() == {} && log.commits == old(log.commits)
      ensures log.cache.Pinned() <= old(log.cache.Pinned()) + Bitmaps()
    {
      hide Ready, Cache.Held, Cache.Pinned, L.Log.View, Inv, At, AtSet, MarkBit, SameBlocks, Bitmaps, BlocksOf,
           Emptied, Word;
      AtDirect(v, d);
      NextPosition(g, v, tab, owner, i, TABLE, POSITIONS);
      assert AtSet(v, d, TABLE, POSITIONS) == AtSet(v, d, TABLE + 1, POSITIONS) + {t};
      var bp, a := GetTable(t, v, d, i, owner, tab, AtSet(v, d, TABLE, POSITIONS));
      var j := 0;
      while j < NINDIRECT
        invariant j <= NINDIRECT
        invariant Truncating(v, d, i, owner, tab, AtSet(v, d, TABLE + 1 + j, POSITIONS) + {t})
        invariant log.cache.Held() == {log.area.To(t)} && log.cache.Holds(bp, log.area.To(t))
                  && log.commits == old(log.commits)
        invariant log.cache.Pinned() <= old(log.cache.Pinned()) + Bitmaps()
      {
        ghost var rest := AtSet(v, d, TABLE + 1 + j, POSITIONS);
        NextPosition(g, v, tab, owner, i, TABLE + 1 + j, POSITIONS);
        TableApart(g, v, tab, owner, i, TABLE + 1 + j);
        if Word(a, j) != 0 {
          FreeOne(Word(a, j), v, d, i, owner, tab, rest + {t});
          assert rest + {t} - {Word(a, j)} == AtSet(v, d, TABLE + 1 + (j + 1), POSITIONS) + {t};
        }
        j := j + 1;
      }
      AtSetNone(v, d);
      DropTable(t, bp, v, d, i, owner, tab);
    }

    /** Ghost bookkeeping at the start of itrunc: the inode's blocks are now blocks to be freed. */
    method StartTruncate(ip: Inode)
      requires Ready({}) && log.cache.Held() == {} && Tied(ip) && log.busy && |Load() + Bitmaps()| <= L.MAXLOAD
      modifies this`fs
      ensures Truncating(log.View(), ip.Fields(), ip.inum, old(fs.owner), old(fs.tab),
              AtSet(log.View(), ip.Fields(), 0, POSITIONS))
    {
      hide L.Log.Valid, Cache.Held, Cache.Pinned, L.Log.View, Inv, AtSet, Bitmaps, BlocksOf, Emptied;
      InvBlocksOf(g, log.View(), fs.tab, fs.owner, ip.inum);
      SameBlocksRefl(g, log.View());
      fs := Files(fs.tab[ip.inum := Emptied(ip.Fields())], fs.owner - BlocksOf(fs.owner, ip.inum));
    }

    /** itrunc's treatment of the indirect table. */
    method FreeTable(ip: Inode, ghost v: Image, ghost d: Dinode, ghost owner: map<int, Slot>, ghost tab: seq<Dinode>)
      requires |d.addrs| == |ip.addrs| == NDIRECT + 1 && ip.addrs[TABLE] == d.addrs[TABLE] && log.cache.Held() == {}
      requires Truncating(v, d, ip.inum, owner, tab, AtSet(v, d, TABLE, POSITIONS))
      requires |Load() + Bitmaps() + {log.area.To(d.addrs[TABLE])}| <= L.MAXLOAD
      modifies log, log.cache, ip`addrs
      ensures Truncating(v, d, ip.inum, owner, tab, {})
      ensures log.cache.Held() == {} && log.commits == old(log.commits)
      ensures log.cache.Pinned() <= old(log.cache.Pinned()) + Bitmaps()
      ensures ip.addrs == old(ip.addrs)[TABLE := 0]
    {
      hide Ready, Cache.Held, Cache.Pinned, L.Log.View, Inv, AtSet, SameBlocks, Bitmaps, BlocksOf, Emptied, At;
      if ip.addrs[TABLE] != 0 {
        FreeEntries(ip.addrs[TABLE], v, d, ip.inum, owner, tab);
        FreeOne(ip.addrs[TABLE], v, d, ip.inum, owner, tab, {ip.addrs[TABLE] as int});
        ip.addrs := ip.addrs[TABLE := 0];
        assert {d.addrs[TABLE] as int} - {d.addrs[TABLE] as int} == {};
      } else {
        AtDirect(v, d);
        NoTableNoBlocks(v, d);
      }
    }

    /** itrunc's ending: the size is 0, in memory and on disk. */
    method EndTruncate(ip: Inode, ghost v: Image, ghost d: Dinode, ghost owner: map<int, Slot>, ghost tab: seq<Dinode>)
      requires Truncating(v, d, ip.inum, owner, tab, {}) && log.cache.Held() == {} && Synced(g, v, tab, -1)
      requires |d.addrs| == NDIRECT + 1 && ip.Fields().(size := 0) == Emptied(d)
      requires |Load() + {log.area.To(g.IBlock(ip.inum))}| <= L.MAXLOAD
      modifies log, log.cache, ip`size
      ensures Ready({}) && log.cache.Held() == {} && Tied(ip) && log.busy && log.commits == old(log.commits)
      ensures ip.Fields() == Emptied(d) && fs == old(fs)
      ensures log.cache.Pinned() == old(log.cache.Pinned()) + {log.area.To(g.IBlock(ip.inum))}
      ensures OthersSame(v, tab, log.View(), fs.tab, ip.inum)
      ensures Synced(g, log.View(), fs.tab, -1)
    {
      hide Ready, Cache.Held, Cache.Pinned, L.Log.View, Inv, SameBlocks, Bitmaps, BlocksOf, Synced, OthersSame,
           UpdateImage,
           Geometry.IBlock, SameFiles;
      ghost var v1 := log.View();
      SameBlocksOthers(g, v, tab, owner, v1, fs.tab, ip.inum);
      ip.size := 0;
      Iupdate(ip);
      SyncedUpdate(g, v1, fs.tab, ip.inum);
      ReadyFacts({});
      FilesOthers(g, v1, log.View(), fs.tab, ip.inum);
      OthersSameTrans(v, tab, v1, fs.tab, log.View(), fs.tab, ip.inum);
    }

    /** The bitmap, the inode and its indirect table fit into the cache and the log. */
    ghost predicate RoomToFree(ip: Inode)
      reads this, log, log.cache, ip
    {
      && |ip.addrs| == NDIRECT + 1
      && |Load() + Bitmaps() + {log.area.To(ip.addrs[TABLE]), log.area.To(g.IBlock(ip.inum))}| <= L.MAXLOAD
    }

    /** itrunc: every block the inode owns goes back to the bitmap, exactly once, and nothing else does. */
    method Itrunc(ip: Inode)
      requires Ready({}) && log.cache.Held() == {} && Tied(ip) && log.busy && Synced(g, log.View(), fs.tab, -1)
      requires RoomToFree(ip)
      modifies log, log.cache, this`fs, ip`addrs, ip`size
      ensures Ready({}) && log.cache.Held() == {} && Tied(ip) && log.busy && log.commits == old(log.commits)
      ensures ip.Fields() == old(Emptied(ip.Fields()))
      ensures ip.size == 0 && |ip.addrs| == NDIRECT + 1 && forall p :: 0 <= p <= NDIRECT ==> ip.addrs[p] == 0
      ensures fs.owner == old(fs.owner - BlocksOf(fs.owner, ip.inum))
      ensures OthersSame(old(log.View()), old(fs.tab), log.View(), fs.tab, ip.inum)
      ensures Synced(g, log.View(), fs.tab, -1)
      ensures log.cache.Pinned() <= old(log.cache.Pinned()) + Bitmaps() + {log.area.To(g.IBlock(ip.inum))}
    {
      hide Ready, Cache.Held, Cache.Pinned, L.Log.View, Inv, AtSet, SameBlocks, Bitmaps, BlocksOf, Synced, OthersSame,
           Geometry.IBlock;
      ghost var v, d, owner, tab := log.View(), ip.Fields(), fs.owner, fs.tab;
      ghost var ta, ia := log.area.To(ip.addrs[TABLE]), log.area.To(g.IBlock(ip.inum));
      ghost var most := Load() + Bitmaps() + {ta, ia};
      SubsetSize(Load() + Bitmaps(), most);
      StartTruncate(ip);
      FreeDirect(ip, v, d, owner, tab);
      SubsetSize(Load() + Bitmaps() + {ta}, most);
      FreeTable(ip, v, d, owner, tab);
      SubsetSize(Load() + {ia}, most);
      assert ip.addrs == seq(NDIRECT + 1, _ => 0);
      EndTruncate(ip, v, d, owner, tab);
    }

    /** iput's work for an inode without links that nobody else refers to: its blocks and then the inode itself are
        free. */
    method FreeInode(ip: Inode)
      requires Ready({}) && log.cache.Held() == {} && Tied(ip) && log.busy && Synced(g, log.View(), fs.tab, -1)
      requires RoomToFree(ip)
      modifies log, log.cache, this`fs, ip`addrs, ip`size, ip`typ
      ensures Ready({}) && log.cache.Held() == {} && Tied(ip) && log.busy && log.commits == old(log.commits)
      ensures ip.Fields() == old(Emptied(ip.Fields())).(typ := 0)
      ensures ip.size == 0 && |ip.addrs| == NDIRECT + 1 && forall p :: 0 <= p <= NDIRECT ==> ip.addrs[p] == 0
      ensures fs.owner == old(fs.owner - BlocksOf(fs.owner, ip.inum)) && fs.tab == old(fs.tab)[ip.inum := ip.Fields()]
      ensures OthersSame(old(log.View()), old(fs.tab), log.View(), fs.tab, ip.inum)
      ensures Synced(g, log.View(), fs.tab, -1)
      ensures log.cache.Pinned() <= old(log.cache.Pinned()) + Bitmaps() + {log.area.To(g.IBlock(ip.inum))}
    {
      hide Ready, Cache.Held, Cache.Pinned, L.Log.View, Bitmaps, BlocksOf, Synced, OthersSame, Geometry.IBlock;
      ghost var v0, tab0 := log.View(), fs.tab;
      ghost var ta, ia := log.area.To(ip.addrs[TABLE]), log.area.To(g.IBlock(ip.inum));
      ghost var most := Load() + Bitmaps() + {ta, ia};
      Itrunc(ip);
      SubsetSize(Load() + {ia}, most);
      SetType(ip, 0, v0, tab0);
      OthersTab(v0, tab0, log.View(), fs.tab, ip.inum);
    }

    method SetType(ip: Inode, typ: ushort, ghost v0: Image, ghost tab0: seq<Dinode>)
      requires Ready({}) && log.cache.Held() == {} && Tied(ip) && log.busy && Synced(g, log.View(), fs.tab, -1)
      requires |Load() + {log.area.To(g.IBlock(ip.inum))}| <= L.MAXLOAD
      requires OthersSame(v0, tab0, log.View(), fs.tab, ip.inum)
      modifies log, log.cache, this`fs, ip`typ
      ensures Ready({}) && log.cache.Held() == {} && Tied(ip) && log.busy && log.commits == old(log.commits)
      ensures ip.typ == typ && fs.owner == old(fs.owner) && Synced(g, log.View(), fs.tab, -1)
      ensures log.cache.Pinned() == old(log.cache.Pinned()) + {log.area.To(g.IBlock(ip.inum))}
      ensures OthersSame(v0, tab0, log.View(), fs.tab, ip.inum)
    {
      hide L.Log.Valid, L.Log.View, Cache.Held, Cache.Pinned, Inv, At, OthersSame, Synced, UpdateImage, SameFile,
           Geometry.IBlock;
      ghost var v, tab := log.View(), fs.tab;
      ip.typ := typ;
      ghost var d := ip.Fields();
      InvResize(g, v, tab, fs.owner, ip.inum, d);
      fs := Files(tab[ip.inum := d], fs.owner);
      Iupdate(ip);
      SyncedBut(g, v, tab, ip.inum);
      SyncedResize(g, v, tab, ip.inum, d);
      SyncedUpdate(g, v, fs.tab, ip.inum);
      ResizeOthers(v0, tab0, v, tab, log.View(), fs.tab, ip.inum, d);
    }

    /** bfree as itrunc uses it. */
    method FreeOne(b: nat, ghost v: Image, ghost d: Dinode, ghost i: nat, ghost owner: map<int, Slot>,
                   ghost tab: seq<Dinode>,
                   ghost rest: set<int>)
      requires Truncating(v, d, i, owner, tab, rest) && b in rest && forall a :: a in log.cache.Held() ==> a.sector != b
      modifies log, log.cache
      ensures Truncating(v, d, i, owner, tab, rest - {b})
      ensures log.cache.Held() == old(log.cache.Held()) && log.commits == old(log.commits)
      ensures log.cache.Pinned() <= old(log.cache.Pinned()) + Bitmaps()
      ensures forall c: nat, x :: old(log.cache.Holds(c, x)) ==> log.cache.Holds(c, x)
    {
      hide Ready, Cache.Held, Cache.Pinned, L.Log.View, Inv, MarkBit, SameBlocks, Bitmaps, BlocksOf, Emptied;
      ghost var before := log.View();
      ReadyExtra(rest, b);
      Bfree(b, rest);
      SameBlocksMark(g, v, before, b, false);
      SubsetSize(Load() + Bitmaps(), old(Load()) + Bitmaps());
    }

    lemma ReadyExtra(extra: set<int>, b: nat)
      requires Ready(extra) && b in extra
      ensures g.Ok() && b < g.size
    {
    }

    /** iupdate: copy the in-memory inode to its slot in the inode block. */
    method Iupdate(ip: Inode)
      requires Ready({}) && log.cache.Held() == {} && Tied(ip) && log.busy
      requires |Load() + {log.area.To(g.IBlock(ip.inum))}| <= L.MAXLOAD
      modifies log, log.cache
      ensures Ready({}) && log.cache.Held() == {}
      ensures log.busy && log.commits == old(log.commits)
      ensures log.View() == UpdateImage(g, old(log.View()), ip.inum, ip.Fields())
      ensures SameFiles(old(log.View()), log.View(), fs.tab)
      ensures log.cache.Pinned() == old(log.cache.Pinned()) + {log.area.To(g.IBlock(ip.inum))}
    {
      hide L.Log.Valid, L.Log.View, Cache.Held, Cache.Pinned, Inv, SameFiles, PutDinode, Geometry.IBlock;
      var s := g.IBlock(ip.inum);
      InvInode(g, log.View(), fs.tab, fs.owner, ip.inum);
      ghost var v := log.View();
      var bp := log.Get(s);
      var d := PutDinode(log.cache.bufs[bp].data, ip.inum % IPB,
          Dinode(ip.typ, ip.major, ip.minor, ip.nlink, ip.size, ip.addrs));
      assert log.cache.Held() + log.cache.Pinned() == old(Load()) + {log.area.To(s)};
      log.LogAndRelease(bp, s, d);
      InodeWriteKeeps(g, v, fs.tab, fs.owner, {}, ip.inum, d);
    }

    /** Bytes are written into a data block of the file, which is logged and released. */
    method PutData(ip: Inode, addr: uint, ghost p: nat, o: nat, bytes: seq<byte>)
      requires Tied(ip) && p < POSITIONS && p != TABLE && o + |bytes| <= BSIZE
      requires addr == At(log.View(), ip.Fields(), p) != 0
      requires Ready({}) && log.cache.Held() == {} && log.busy && |Load() + {log.area.To(addr)}| <= L.MAXLOAD
      modifies log, log.cache
      ensures OneBlock(old(log.View()), ip.Fields(), log.View(), p, Overwrite(Peek(old(log.View()), addr), o, bytes))
      ensures log.View() == old(log.View())[addr := Overwrite(Peek(old(log.View()), addr), o, bytes)]
      ensures log.cache.Pinned() == old(log.cache.Pinned()) + {log.area.To(addr)}
      ensures OthersSame(old(log.View()), fs.tab, log.View(), fs.tab, ip.inum)
      ensures log.busy && log.commits == old(log.commits) && g.Ok() && g.DataStart() <= addr
      ensures Ready({}) && log.cache.Held() == {}
    {
      hide L.Log.Valid, L.Log.View, Cache.Held, Cache.Pinned, Inv, Overwrite, OneBlock, At, OthersSame,
           Geometry.DataStart, Geometry.Ok;
      ghost var v := log.View();
      DataInView(g, v, fs.tab, fs.owner, ip.inum, p);
      var bp := log.Get(addr);
      var d := Overwrite(log.cache.bufs[bp].data, o, bytes);
      assert log.cache.Held() + log.cache.Pinned() == old(Load()) + {log.area.To(addr)};
      log.LogAndRelease(bp, addr, d);
      DataWriteMeans(g, v, fs.tab, fs.owner, ip.inum, p, d);
    }

    /** The loop invariant of writei, as far as the inode and the log are concerned. */
    ghost predicate InLoop(ip: Inode, off: nat, src: seq<byte>, tot: nat, s0: Snap, tab0: seq<Dinode>, t: Tally)
      reads this, log, log.cache, ip
    {
      && Ready({}) && log.cache.Held() == {} && Tied(ip) && log.busy
      && off + |src| <= MAXBYTES && |s0.ino.addrs| == NDIRECT + 1 && off <= s0.ino.size
      && WriteBudget(g, Bitmaps(), log.area.To(g.IBlock(ip.inum)), s0, off, |src|)
      && Writing(g, log.area, Bitmaps(), s0, Now(ip), off, src, tot, t)
      && OthersSame(s0.view, tab0, log.View(), fs.tab, ip.inum)
    }

    /** Block `addr` holds byte `k` of the file. */
    ghost predicate HoldsByte(ip: Inode, k: nat, addr: uint)
      reads log, log.cache, ip
    {
      && |ip.addrs| == NDIRECT + 1 && PosOf(k / BSIZE) < POSITIONS
      && addr == At(log.View(), ip.Fields(), PosOf(k / BSIZE)) != 0
    }

    /** The block for the next round of writei's loop. */
    method MapForWrite(ip: Inode, off: nat, src: seq<byte>, tot: nat, ghost s0: Snap, ghost tab0: seq<Dinode>,
                       ghost t: Tally)
      returns (addr: uint, ghost t': Tally)
      requires InLoop(ip, off, src, tot, s0, tab0, t) && tot < |src| && (tot == 0 || (off + tot) % BSIZE == 0)
      requires t.c < Covered(off, |src|) && t.k <= GrowBy(s0.ino.size, off + tot)
      modifies log, log.cache, this`fs, ip`addrs
      ensures InLoop(ip, off, src, tot, s0, tab0, t') && log.commits == old(log.commits)
      ensures t'.c == t.c + 1 && t'.k <= GrowBy(s0.ino.size, off + (tot + Chunk(off, tot, |src|)))
      ensures HoldsByte(ip, off + tot, addr) && log.area.To(addr) in t'.ds
      ensures off + tot < s0.ino.size ==> ip.addrs == old(ip.addrs)
    {
      hide Ready, Cache.Held, Cache.Pinned, L.Log.View, OthersSame, Bitmaps, At, Grew, Writing, WriteBudget, Covered,
           GrowBy, Chunk,
           PosOf, Blocks;
      ghost var s, v, tab := Now(ip), log.View(), fs.tab;
      var bn := (off + tot) / BSIZE;
      WriteRoom(ip, off, src, tot, s0, tab0, t);
      ghost var found := At(v, ip.Fields(), PosOf(bn)) != 0;
      addr := Bmap(ip, bn);
      OthersSameTrans(s0.view, tab0, v, tab, log.View(), fs.tab, ip.inum);
      if found {
        WritingMore(g, log.area, Bitmaps(), s0, s, off, src, tot, t, log.area.To(addr));
        t' := Tally(t.c + 1, t.k, t.ds + {log.area.To(addr)});
      } else {
        WritingBmap(g, log.area, Bitmaps(), s0, s, Now(ip), off, src, tot, t, PosOf(bn),
                    if old(ip.addrs[TABLE]) == ip.addrs[TABLE] then 1 else 2);
        t' := Tally(t.c + 1, t.k + 1, t.ds + {log.area.To(addr)});
      }
    }

    /** bmap can always be called: if it has to allocate, the budget covers it. */
    lemma WriteRoom(ip: Inode, off: nat, src: seq<byte>, tot: nat, s0: Snap, tab0: seq<Dinode>, t: Tally)
      requires InLoop(ip, off, src, tot, s0, tab0, t) && tot < |src| && (tot == 0 || (off + tot) % BSIZE == 0)
      requires t.c < Covered(off, |src|) && t.k <= GrowBy(s0.ino.size, off + tot)
      ensures var bn := (off + tot) / BSIZE;
              && bn < MAXFILE && PosOf(bn) < POSITIONS && PosOf(bn) != TABLE && |log.cache.Pinned()| < NBUF
              && (bn >= NDIRECT ==> Blocks(off + |src|) > NDIRECT)
              && t.k <= GrowBy(s0.ino.size, off + (tot + Chunk(off, tot, |src|)))
              && (off + tot < s0.ino.size ==> At(log.View(), ip.Fields(), PosOf(bn)) != 0)
              && (At(log.View(), ip.Fields(), PosOf(bn)) == 0 ==>
                    && CanAllocate(1, {log.area.To(ip.addrs[TABLE])})
                    && (ip.addrs[TABLE] == 0 && bn >= NDIRECT ==> CanAllocate(2, {}))
                    && t.k + 1 <= GrowBy(s0.ino.size, off + (tot + Chunk(off, tot, |src|))))
              && (At(log.View(), ip.Fields(), PosOf(bn)) != 0 && bn >= NDIRECT ==> ip.addrs[TABLE] != 0)
    {
      hide Ready, Cache.Held, Cache.Pinned, L.Log.View, OthersSame, Bitmaps, At, Writing, WriteBudget;
      var bn := (off + tot) / BSIZE;
      var s, inode := Now(ip), log.area.To(g.IBlock(ip.inum));
      AtDirect(log.View(), ip.Fields());
      GrowByMore(s0.ino.size, off + tot, off + (tot + Chunk(off, tot, |src|)));
      WritingLoad(g, log.area, Bitmaps(), inode, s0, s, off, src, tot, t);
      SubsetSize(s.pinned, s.pinned + t.ds);
      if bn < Blocks(s0.ino.size) {
        WritingAllocated(g, log.area, Bitmaps(), s0, s, off, src, tot, t, bn);
      } else {
        GrowByStep(s0.ino.size, off, tot, |src|);
        WritingBudget(g, log.area, Bitmaps(), inode, s0, s, off, src, tot, t);
        var ta := log.area.To(ip.addrs[TABLE]);
        assert Load() + Bitmaps() + {ta} == s.pinned + Bitmaps() + {ta};
        assert Load() + Bitmaps() + {} == s.pinned + Bitmaps();
      }
    }

    /** One round of writei's loop. */
    method WriteChunk(ip: Inode, off: nat, src: seq<byte>, tot: nat, ghost s0: Snap, ghost tab0: seq<Dinode>,
                      ghost t: Tally)
      returns (m: nat, ghost t': Tally)
      requires InLoop(ip, off, src, tot, s0, tab0, t) && tot < |src| && (tot == 0 || (off + tot) % BSIZE == 0)
      requires t.c < Covered(off, |src|) && t.k <= GrowBy(s0.ino.size, off + tot)
      modifies log, log.cache, this`fs, ip`addrs
      ensures m == Chunk(off, tot, |src|)
      ensures InLoop(ip, off, src, tot + m, s0, tab0, t') && log.commits == old(log.commits)
      ensures t'.c == t.c + 1 && t'.k <= GrowBy(s0.ino.size, off + (tot + m))
      ensures off + tot < s0.ino.size ==> ip.addrs == old(ip.addrs)
    {
      hide Ready, Cache.Held, Cache.Pinned, L.Log.View, OthersSame, Bitmaps, At, Writing, WriteBudget, Covered,
           Overwrite,
           OneBlock, Peek, GrowBy, Blocks;
      var addr;
      addr, t' := MapForWrite(ip, off, src, tot, s0, tab0, t);
      ghost var s, v := Now(ip), log.View();
      m := Chunk(off, tot, |src|);
      WritingLoad(g, log.area, Bitmaps(), log.area.To(g.IBlock(ip.inum)), s0, s, off, src, tot, t');
      assert Load() + {log.area.To(addr)} == s.pinned + {log.area.To(addr)};
      SubsetSize(s.pinned + {log.area.To(addr)}, s.pinned + t'.ds);
      PutData(ip, addr, PosOf((off + tot) / BSIZE), (off + tot) % BSIZE, src[tot..tot + m]);
      OthersSameTrans(s0.view, tab0, v, fs.tab, log.View(), fs.tab, ip.inum);
      WritingData(g, log.area, Bitmaps(), s0, s, Now(ip), off, src, tot, t', addr);
    }

    /** What writei needs of its caller: an open transaction with room for the write, no buffer held, and a regular
        inode whose blocks below its size are all allocated. */
    ghost predicate CanWrite(ip: Inode, off: nat, n: nat)
      reads this, log, log.cache, ip
    {
      && Ready({}) && log.cache.Held() == {} && Tied(ip) && log.busy && ip.typ != T_DEV
      && Synced(g, log.View(), fs.tab, -1) && Filled(log.View(), ip.Fields())
      && (off <= ip.size && off + n <= MAXBYTES ==>
          WriteBudget(g, Bitmaps(), log.area.To(g.IBlock(ip.inum)), Now(ip), off, n))
    }

    /** writei's loop. */
    method WriteLoop(ip: Inode, off: uint, src: seq<byte>) returns (ghost t: Tally)
      requires CanWrite(ip, off, |src|) && off <= ip.size && off + |src| <= MAXBYTES
      modifies log, log.cache, this`fs, ip`addrs
      ensures InLoop(ip, off, src, |src|, old(Now(ip)), old(fs.tab), t) && log.commits == old(log.commits)
      ensures t.c == Covered(off, |src|) && t.k <= GrowBy(ip.size, off + |src|)
      ensures off + |src| <= ip.size ==> ip.addrs == old(ip.addrs)
    {
      hide Ready, Cache.Held, Cache.Pinned, L.Log.View, OthersSame, Bitmaps, At, Writing, WriteBudget, Synced, Filled,
           Covered,
           Chunk, GrowBy, Blocks;
      ghost var s0, tab0 := Now(ip), fs.tab;
      t := Tally(0, 0, {});
      var tot := 0;
      WritingStart(g, log.area, Bitmaps(), s0, off, src);
      OthersSameRefl(log.View(), fs.tab, ip.inum);
      CoveredNone(off);
      while tot < |src|
        invariant tot <= |src| && (tot == 0 || tot == |src| || (off + tot) % BSIZE == 0)
        invariant InLoop(ip, off, src, tot, s0, tab0, t) && log.commits == old(log.commits)
        invariant t.c == Covered(off, tot) && t.k <= GrowBy(s0.ino.size, off + tot)
        invariant off + tot <= s0.ino.size ==> ip.addrs == old(ip.addrs)
      {
        CoveredStep(off, tot, |src|);
        var m;
        m, t := WriteChunk(ip, off, src, tot, s0, tab0, t);
        tot := tot + m;
      }
    }

    /** writei: the file's bytes become one write into its old bytes, no other file changes, the inode on disk is the
        one in memory, and the number of sectors logged is bounded by the blocks covered. */
    method Writei(ip: Inode, src: seq<byte>, off: uint) returns (r: int)
      requires |src| <= UINT_MAX && CanWrite(ip, off, |src|)
      modifies log, log.cache, this`fs, ip`addrs, ip`size
      ensures Ready({}) && log.cache.Held() == {} && Tied(ip) && log.busy && log.commits == old(log.commits)
      ensures Synced(g, log.View(), fs.tab, -1)
      ensures OthersSame(old(log.View()), old(fs.tab), log.View(), fs.tab, ip.inum)
      ensures off > old(ip.size) || off + |src| > MAXBYTES ==> r == -1 && Now(ip) == old(Now(ip)) && fs == old(fs)
      ensures off <= old(ip.size) && off + |src| <= MAXBYTES ==>
                r == |src| && Wrote(g, log.area, Bitmaps(), old(Now(ip)), Now(ip), ip.inum, off, src)
    {
      hide Ready, Cache.Held, Cache.Pinned, L.Log.View, OthersSame, Bitmaps, At, Writing, WriteBudget, Synced, Filled,
           Wrote;
      WriteRefusedMeans(ip.size, off, |src|);
      ghost var v := log.View();
      if WriteRefused(ip.size, off, |src|) {
        OthersSameRefl(v, fs.tab, ip.inum);
        return -1;
      }
      ghost var s0, tab0 := Now(ip), fs.tab;
      ReadyFacts({});
      FilledSize(v, s0.ino);
      ghost var t := WriteLoop(ip, off, src);
      ghost var s1 := Now(ip);
      WritingSynced(g, log.area, Bitmaps(), s0, s1, off, src, t, tab0, fs.tab, ip.inum);
      if |src| > 0 && off + |src| > ip.size {
        WritingLoad(g, log.area, Bitmaps(), log.area.To(g.IBlock(ip.inum)), s0, s1, off, src, |src|, t);
        assert Load() + {log.area.To(g.IBlock(ip.inum))} == s1.pinned + {log.area.To(g.IBlock(ip.inum))};
        SetSize(ip, off + |src|, s0.view, tab0);
      } else {
        SameFileRefl(s1.view, s1.ino);
      }
      WroteFrom(g, log.area, Bitmaps(), s0, s1, Now(ip), ip.inum, off, src, t);
      r := |src|;
    }

    /** The new size goes to the inode and to the disk. */
    method SetSize(ip: Inode, size: uint, ghost v0: Image, ghost tab0: seq<Dinode>)
      requires Ready({}) && log.cache.Held() == {} && Tied(ip) && log.busy
      requires |Load() + {log.area.To(g.IBlock(ip.inum))}| <= L.MAXLOAD
      requires Synced(g, log.View(), fs.tab, ip.inum)
      requires OthersSame(v0, tab0, log.View(), fs.tab, ip.inum)
      modifies log, log.cache, this`fs, ip`size
      ensures Ready({}) && log.cache.Held() == {} && Tied(ip) && log.busy && log.commits == old(log.commits)
      ensures ip.size == size && Synced(g, log.View(), fs.tab, -1)
      ensures SameFile(old(log.View()), log.View(), ip.Fields())
      ensures OthersSame(v0, tab0, log.View(), fs.tab, ip.inum)
      ensures log.cache.Pinned() == old(log.cache.Pinned()) + {log.area.To(g.IBlock(ip.inum))}
      ensures fs.owner == old(fs.owner)
    {
      hide L.Log.Valid, L.Log.View, Cache.Held, Cache.Pinned, Inv, At, OthersSame, Synced, UpdateImage, SameFile,
           Geometry.IBlock;
      ghost var v, tab := log.View(), fs.tab;
      ip.size := size;
      ghost var d := ip.Fields();
      InvResize(g, v, tab, fs.owner, ip.inum, d);
      fs := Files(tab[ip.inum := d], fs.owner);
      Iupdate(ip);
      SyncedResize(g, v, tab, ip.inum, d);
      SyncedUpdate(g, v, fs.tab, ip.inum);
      ResizeOthers(v0, tab0, v, tab, log.View(), fs.tab, ip.inum, d);
    }

    /** readi: exactly the requested slice of the file's bytes, and no change to anything. */
    method Readi(ip: Inode, off: uint, n: uint) returns (r: int, dst: seq<byte>)
      requires Ready({}) && log.cache.Held() == {} && Tied(ip) && ip.typ != T_DEV && Filled(log.View(), ip.Fields())
      requires |log.cache.Pinned()| < NBUF
      modifies log, log.cache, this`fs, ip`addrs
      ensures Ready({}) && log.cache.Held() == {} && Tied(ip) && Now(ip) == old(Now(ip)) && fs == old(fs)
      ensures log.busy == old(log.busy) && log.commits == old(log.commits)
      ensures off > ip.size || off + n > UINT_MAX ==> r == -1 && dst == []
      ensures off <= ip.size <= MAXBYTES && off + n <= UINT_MAX ==>
                && r == (if off + n > ip.size then ip.size - off else n)
                && dst == Content(log.View(), ip.Fields())[off..off + r]
    {
      hide Ready, Cache.Held, Cache.Pinned, L.Log.View, Filled, Content, At, Chunk;
      dst := [];
      var sum: int := off + n;
      if off > ip.size || sum % (UINT_MAX + 1) < off {
        return -1, [];
      }
      FilledSize(log.View(), ip.Fields());
      r := if off + n > ip.size then ip.size - off else n;
      ghost var all := Content(log.View(), ip.Fields());
      var tot := 0;
      while tot < r
        invariant 0 <= tot <= r
        invariant Ready({}) && log.cache.Held() == {} && Tied(ip) && Now(ip) == old(Now(ip)) && fs == old(fs)
        invariant log.busy == old(log.busy) && log.commits == old(log.commits)
        invariant dst == all[off..off + tot]
      {
        var m := Chunk(off, tot, r);
        var bytes := ReadPiece(ip, off + tot, m);
        SliceMore(all, off, off + tot, m);
        dst := dst + bytes;
        tot := tot + m;
      }
    }

    /** One round of readi: the stretch of the file that falls into one block. */
    method ReadPiece(ip: Inode, at: nat, m: nat) returns (bytes: seq<byte>)
      requires Ready({}) && log.cache.Held() == {} && Tied(ip) && Filled(log.View(), ip.Fields())
      requires |log.cache.Pinned()| < NBUF && 0 < m && at + m <= ip.size <= MAXBYTES && at % BSIZE + m <= BSIZE
      modifies log, log.cache, this`fs, ip`addrs
      ensures Ready({}) && log.cache.Held() == {} && Tied(ip) && Now(ip) == old(Now(ip)) && fs == old(fs)
      ensures log.busy == old(log.busy) && log.commits == old(log.commits)
      ensures bytes == Content(log.View(), ip.Fields())[at..at + m]
    {
      hide L.Log.Valid, Inv, Cache.Held, Cache.Pinned, L.Log.View, Content, At, Grew, OthersSame, Bitmaps;
      ghost var d := ip.Fields();
      ReadChunk(log.View(), d, at, m);
      AtDirect(log.View(), d);
      var addr := Bmap(ip, at / BSIZE);
      DataInView(g, log.View(), fs.tab, fs.owner, ip.inum, PosOf(at / BSIZE));
      var data := log.ReadBlock(addr);
      bytes := data[at % BSIZE..at % BSIZE + m];
    }

    lemma BitmapsHave(b: nat)
      requires b < g.size
      ensures log.area.To(g.BBlock(b)) in Bitmaps()
    {
    }

    /** One step of balloc's outer loop: scan the bitmap block that starts at bit `b`, and mark the first free block. */
    method ScanBitmap(b: nat, size: nat, ghost extra: set<int>) returns (found: bool, r: nat)
      requires Ready(extra) && log.busy && size == g.size && b < size && b % BPB == 0
      requires |Load() + Bitmaps()| <= L.MAXLOAD
      modifies log, log.cache
      ensures log.Valid() && log.busy && log.pending == {} && log.commits == old(log.commits)
      ensures log.cache.Held() == old(log.cache.Held())
      ensures forall c: nat, x :: old(log.cache.Holds(c, x)) ==> log.cache.Holds(c, x)
      ensures !found ==> log.View() == old(log.View()) && log.cache.Pinned() == old(log.cache.Pinned())
      ensures !found ==> forall x: nat :: b <= x < b + BPB && x < size ==> Used(g, log.View(), x)
      ensures found ==> b <= r < b + BPB && r < size && !Used(g, old(log.View()), r)
      ensures found ==> log.View() == MarkBit(g, old(log.View()), r, true)
      ensures found ==> log.cache.Pinned() == old(log.cache.Pinned()) + {log.area.To(g.BBlock(r))}
      ensures found ==> forall x: nat :: b <= x < r ==> Used(g, old(log.View()), x)
    {
      hide L.Log.Valid, L.Log.View, Cache.Held, Cache.Pinned, PutBit, BlockBit, Inv;
      var s := g.BBlock(b);
      InvBitmap(g, log.View(), fs.tab, fs.owner, extra, b);
      assert log.area.To(s) in Bitmaps();
      SubsetSize(Load() + {log.area.To(s)}, Load() + Bitmaps());
      var bp := log.Get(s);
      var data := log.cache.bufs[bp].data;
      var n := if size - b < BPB then size - b else BPB;
      var bi := FindClear(data, n);
      r := b + bi;
      ScanMeaning(g, log.View(), b, bi);
      assert log.cache.Held() + log.cache.Pinned() == old(Load()) + {log.area.To(s)};
      found := bi < n;
      if found {
        log.LogAndRelease(bp, s, PutBit(data, bi, true));
      } else {
        log.Brelse(bp, log.area.To(s));
      }
    }
  }

  lemma InvSuper(g: Geometry, v: Image, tab: seq<Dinode>, owner: map<int, Slot>, extra: set<int>)
    requires Inv(g, v, tab, owner, extra)
    ensures g.Ok() && Tables(g, tab) && 1 in v && 1 !in owner && 1 !in extra && Word(v[1], 0) == g.size
            && Word(v[1], 2) == g.ninodes
  {
    OwnedRange(g, v, tab, owner, 1);
  }

  lemma InvBitmap(g: Geometry, v: Image, tab: seq<Dinode>, owner: map<int, Slot>, extra: set<int>, b: nat)
    requires Inv(g, v, tab, owner, extra) && b < g.size
    ensures g.BBlock(b) in v && g.BBlock(b) !in owner && g.BBlock(b) !in extra && g.start <= UINT_MAX
            && g.BBlock(b) < g.start
  {
    OwnedRange(g, v, tab, owner, g.BBlock(b));
  }

  /** Bits of one bitmap block are the Used flags of consecutive blocks. */
  lemma ScanMeaning(g: Geometry, v: Image, b: nat, bi: nat)
    requires b % BPB == 0 && g.BBlock(b) in v && bi <= BPB
    requires forall bj: nat :: bj < bi ==> BlockBit(v[g.BBlock(b)], bj)
    ensures forall x: nat :: b <= x < b + bi ==> Used(g, v, x)
    ensures bi < BPB ==> (Used(g, v, b + bi) <==> BlockBit(v[g.BBlock(b)], bi))
    ensures bi < BPB ==> g.BBlock(b + bi) == g.BBlock(b) && (b + bi) % BPB == bi
  {
    forall x: nat | b <= x < b + BPB ensures g.BBlock(x) == g.BBlock(b) && x % BPB == x - b {
    }
  }

  lemma InvFree(g: Geometry, v: Image, tab: seq<Dinode>, owner: map<int, Slot>, extra: set<int>, b: nat)
    requires Inv(g, v, tab, owner, extra) && g.DataStart() <= b < g.start && b !in owner && b !in extra
    ensures !Used(g, v, b)
  {
  }

  lemma InvDomain(g: Geometry, v: Image, tab: seq<Dinode>, owner: map<int, Slot>, extra: set<int>, b: nat)
    requires Inv(g, v, tab, owner, extra) && b < g.start
    ensures b in v && b in MarkBit(g, v, b, true) && 0 < g.DataStart() && g.start <= g.size <= UINT_MAX
  {
  }

  lemma OthersSameRefl(v: Image, tab: seq<Dinode>, i: nat)
    ensures OthersSame(v, tab, v, tab, i)
  {
  }

  lemma TableInView(g: Geometry, v: Image, tab: seq<Dinode>, owner: map<int, Slot>, i: nat)
    requires Inv(g, v, tab, owner, {}) && i < |tab| && |tab[i].addrs| == NDIRECT + 1 && tab[i].addrs[TABLE] != 0
    ensures tab[i].addrs[TABLE] in v && tab[i].addrs[TABLE] in owner
    ensures g.Ok() && g.DataStart() <= tab[i].addrs[TABLE] < g.start <= UINT_MAX
    ensures forall j: nat :: j < NINDIRECT ==> Word(v[tab[i].addrs[TABLE]], j) == At(v, tab[i], TABLE + 1 + j)
  {
    OwnedTable(g, v, tab, owner, i);
    TableOwned(g, v, tab, owner, i);
  }

  lemma EntryResult(g: Geometry, v: Image, d: Dinode, j: nat, b: uint, v2: Image)
    requires |d.addrs| == NDIRECT + 1 && d.addrs[TABLE] != 0 && j < NINDIRECT
    requires v2 == EntryImage(AllocImage(g, v, b), d.addrs[TABLE], j, b)
    ensures At(v2, d, TABLE + 1 + j) == b
  {
  }

  /** A table that balloc has just handed out has no entries, and neither had the inode without it. */
  lemma NewTableEmpty(v: Image, d: Dinode, v': Image, d': Dinode, j: nat)
    requires |d.addrs| == |d'.addrs| == NDIRECT + 1 && j < NINDIRECT && Gained(v, d, v', d', TABLE)
    ensures At(v, d, TABLE + 1 + j) == 0 && At(v', d', TABLE + 1 + j) == 0
  {
    ZeroBlockWords(j);
  }

  lemma AtDirect(v: Image, d: Dinode)
    requires |d.addrs| == NDIRECT + 1
    ensures forall p: nat :: p <= TABLE ==> At(v, d, p) == d.addrs[p]
    ensures forall p: nat :: TABLE < p < POSITIONS && d.addrs[TABLE] == 0 ==> At(v, d, p) == 0
  {
  }

  lemma InvInode(g: Geometry, v: Image, tab: seq<Dinode>, owner: map<int, Slot>, i: nat)
    requires Inv(g, v, tab, owner, {}) && i < |tab|
    ensures g.IBlock(i) in v && g.IBlock(i) !in owner && g.IBlock(i) < g.start <= UINT_MAX && i < g.ninodes
  {
    hide Marked, References, At, Word, Geometry.IBlock, Geometry.BBlock, Geometry.DataStart;
    NotEmpty(g);
    Regions(g, i, 0);
    OwnedRange(g, v, tab, owner, g.IBlock(i));
  }

  lemma DataInView(g: Geometry, v: Image, tab: seq<Dinode>, owner: map<int, Slot>, i: nat, p: nat)
    requires Inv(g, v, tab, owner, {}) && i < |tab| && |tab[i].addrs| == NDIRECT + 1 && p < POSITIONS
             && At(v, tab[i], p) != 0
    ensures At(v, tab[i], p) in v && g.Ok() && g.DataStart() <= At(v, tab[i], p) < g.start <= UINT_MAX
  {
    OwnedAt(g, v, tab, owner, i, p);
  }

  lemma DataWriteMeans(g: Geometry, v: Image, tab: seq<Dinode>, owner: map<int, Slot>, i: nat, p: nat, data: block)
    requires Inv(g, v, tab, owner, {}) && i < |tab| && p < POSITIONS && p != TABLE && |tab[i].addrs| == NDIRECT + 1
    requires At(v, tab[i], p) != 0
    ensures var v' := v[At(v, tab[i], p) := data];
            Inv(g, v', tab, owner, {}) && OneBlock(v, tab[i], v', p, data) && OthersSame(v, tab, v', tab, i)
  {
    DataWriteKeeps(g, v, tab, owner, {}, i, p, data);
    hide At, Inv, SameFile;
  }

  lemma InvExtra(g: Geometry, v: Image, tab: seq<Dinode>, owner: map<int, Slot>, extra: set<int>, b: nat)
    requires Inv(g, v, tab, owner, extra) && b in extra
    ensures g.Ok() && g.DataStart() <= b < g.start <= g.size && b !in owner
  {
  }

  lemma MarkBitIs(g: Geometry, v: Image, b: nat, on: bool)
    requires g.BBlock(b) in v
    ensures MarkBit(g, v, b, on) == v[g.BBlock(b) := PutBit(v[g.BBlock(b)], b % BPB, on)]
  {
  }

  lemma TableStays(g: Geometry, v: Image, tab: seq<Dinode>, owner: map<int, Slot>, i: nat, v': Image, fs: Files,
                   rest: set<int>)
    requires Inv(g, v, tab, owner, {}) && i < |tab| && |tab[i].addrs| == NDIRECT + 1 && tab[i].addrs[TABLE] != 0
    requires SameBlocks(g, v, v') && Inv(g, v', fs.tab, fs.owner, rest)
    ensures tab[i].addrs[TABLE] in v'
    ensures forall j: nat :: j < NINDIRECT ==> Word(v'[tab[i].addrs[TABLE]], j) == At(v, tab[i], TABLE + 1 + j)
  {
    TableInView(g, v, tab, owner, i);
    hide Word;
    assert Peek(v', tab[i].addrs[TABLE]) == Peek(v, tab[i].addrs[TABLE]);
  }

  lemma TableApart(g: Geometry, v: Image, tab: seq<Dinode>, owner: map<int, Slot>, i: nat, p: nat)
    requires Inv(g, v, tab, owner, {}) && i < |tab| && |tab[i].addrs| == NDIRECT + 1 && TABLE < p < POSITIONS
    ensures At(v, tab[i], p) != 0 ==> At(v, tab[i], p) != tab[i].addrs[TABLE]
  {
    if At(v, tab[i], p) != 0 {
      DistinctPositions(g, v, tab, owner, i, p, TABLE);
    }
  }

  lemma AtSetNone(v: Image, d: Dinode)
    requires |d.addrs| == NDIRECT + 1
    ensures AtSet(v, d, POSITIONS, POSITIONS) == {}
  {
  }

  lemma InvBlocksOf(g: Geometry, v: Image, tab: seq<Dinode>, owner: map<int, Slot>, i: nat)
    requires Inv(g, v, tab, owner, {}) && i < |tab| && |tab[i].addrs| == NDIRECT + 1
    ensures BlocksOf(owner, i) == AtSet(v, tab[i], 0, POSITIONS)
    ensures Inv(g, v, tab[i := Emptied(tab[i])], owner - BlocksOf(owner, i), AtSet(v, tab[i], 0, POSITIONS))
  {
    BlocksOfAll(g, v, tab, owner, i);
    hide AtSet;
    UnlinkInv(g, v, tab, owner, i);
  }

  lemma SameBlocksRefl(g: Geometry, v: Image)
    ensures SameBlocks(g, v, v)
  {
  }

  lemma NoTableNoBlocks(v: Image, d: Dinode)
    requires |d.addrs| == NDIRECT + 1 && d.addrs[TABLE] == 0
    ensures AtSet(v, d, TABLE, POSITIONS) == {}
  {
  }

  /** Clearing bitmap bits disturbs neither the files nor the inodes on disk. */
  lemma SameBlocksOthers(g: Geometry, v: Image, tab: seq<Dinode>, owner: map<int, Slot>, v': Image, tab': seq<Dinode>,
                         i: nat)
    requires Inv(g, v, tab, owner, {}) && i < |tab| && |tab'| == |tab| && SameBlocks(g, v, v')
    requires forall k :: 0 <= k < |tab| && k != i ==> tab'[k] == tab[k]
    requires Synced(g, v, tab, -1)
    ensures OthersSame(v, tab, v', tab', i) && Synced(g, v', tab', i)
  {
    assert MetaSame(g, v, v');
    SyncedMeta(g, v, v', tab, tab', i);
    forall k | 0 <= k < |tab| ensures SameFile(v, v', tab[k]) {
      forall p: nat | p < POSITIONS && At(v, tab[k], p) != 0
          ensures Peek(v', At(v, tab[k], p)) == Peek(v, At(v, tab[k], p)) {
        OwnedAt(g, v, tab, owner, k, p);
      }
      assert At(v, tab[k], TABLE) == tab[k].addrs[TABLE];
    }
  }

  lemma FilesOthers(g: Geometry, v: Image, v': Image, tab: seq<Dinode>, i: nat)
    requires SameFiles(v, v', tab)
    ensures OthersSame(v, tab, v', tab, i)
  {
    hide SameFile;
  }
}
