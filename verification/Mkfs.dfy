/** The image that mkfs.c makes when it is given no files. */
module Mkfs {
  import opened Bytes
  import opened Layout
  import opened Recovery
  import opened FsImage
  import opened Dirs
  import opened DirFiles
  import opened DiskInodes
  import opened DiskLinks
  import Links

  /** mkfs's balloc: a bitmap block with the first `used` bits set. */
  method Balloc(used: nat) returns (buf: block)
    requires used <= BPB
    ensures forall bi: nat :: bi < BPB ==> (BlockBit(buf, bi) <==> bi < used)
  {
    hide BlockBit;
    buf := ZeroBlock();
    ZeroBits();
    for i := 0 to used
      invariant forall bi: nat :: bi < BPB ==> (BlockBit(buf, bi) <==> bi < i)
    {
      buf := PutBit(buf, i, true);
    }
  }

  lemma ZeroBits()
    ensures forall bi: nat :: bi < BPB ==> !BlockBit(ZeroBlock(), bi)
  {
    forall bi: nat | bi < BPB ensures !BlockBit(ZeroBlock(), bi) {
      NoBit(bi % 8);
    }
  }

  lemma {:induction false} NoBit(k: nat)
    ensures !Bit(0, k)
  {
    if k > 0 {
      NoBit(k - 1);
    }
  }

  lemma ZeroInode(k: nat)
    requires k < IPB
    ensures GetDinode(ZeroBlock(), k) == Claimed(0)
  {
    forall i: nat | i < 16 ensures Word(ZeroBlock(), 16 * k + i) == DinodeWords(Claimed(0))[i] {
      ZeroBlockWords(16 * k + i);
    }
    DinodeFromWords(ZeroBlock(), k, Claimed(0));
  }

  /** The root's inode, with one block of entries. */
  function RootInode(g: Geometry): (d: Dinode)
    requires g.Ok()
    ensures |d.addrs| == NDIRECT + 1 && d.addrs[0] == g.DataStart()
    ensures forall i :: 1 <= i <= NDIRECT ==> d.addrs[i] == 0
  {
    Dinode(T_DIR, 0, 0, 1, BSIZE, [g.DataStart()] + seq(NDIRECT, _ => 0))
  }

  /** The dots; the other entries are free. */
  function RootBlock(): (b: block) {
    Encode(Ent(Links.ROOT, Links.DOT)) + Encode(Ent(Links.ROOT, Links.DOTDOT)) + seq(BSIZE - 2 * DESIZE, _ => 0)
  }

  lemma RootEntries()
    ensures var ents := Entries(RootBlock());
            && |ents| == BSIZE / DESIZE
            && ents[0] == Ent(Links.ROOT, Links.DOT) && ents[1] == Ent(Links.ROOT, Links.DOTDOT)
            && forall k :: 2 <= k < |ents| ==> ents[k].inum == 0
  {
    hide Encode;
    var b, dot, dots := RootBlock(), Encode(Ent(Links.ROOT, Links.DOT)), Encode(Ent(Links.ROOT, Links.DOTDOT));
    assert b[0..DESIZE] == dot && b[DESIZE..2 * DESIZE] == dots;
    DecodeEncode(Ent(Links.ROOT, Links.DOT));
    DecodeEncode(Ent(Links.ROOT, Links.DOTDOT));
    forall k: nat | 2 <= k < BSIZE / DESIZE ensures Entries(b)[k].inum == 0 {
      assert b[DESIZE * k..DESIZE * k + DESIZE][0] == 0 && b[DESIZE * k..DESIZE * k + DESIZE][1] == 0;
    }
  }

  function RootTab(g: Geometry): (tab: seq<Dinode>)
    requires g.Ok()
    ensures |tab| == g.ninodes
    ensures forall i :: 0 <= i < |tab| ==> tab[i] == if i == Links.ROOT then RootInode(g) else Claimed(0)
  {
    seq(g.ninodes, i => if i == Links.ROOT then RootInode(g) else Claimed(0))
  }

  /** The inode block of the root. */
  function FirstInodes(g: Geometry): (b: block)
    requires g.Ok()
  {
    PutDinode(ZeroBlock(), Links.ROOT % IPB, RootInode(g))
  }

  /** An image with nothing but the root. */
  ghost predicate Rooted(g: Geometry, v: Image) {
    && g.Ok() && Links.ROOT < g.ninodes && g.DataStart() < g.start && Complete(g, v)
    && (forall s: nat :: 2 <= s < g.BBlock(0) ==>
          Peek(v, s) == if s == g.IBlock(Links.ROOT) then FirstInodes(g) else ZeroBlock())
    && Peek(v, g.DataStart()) == RootBlock()
    && forall b: nat :: b < g.size ==> (Used(g, v, b) <==> b <= g.DataStart())
  }

  lemma RootSynced(g: Geometry, v: Image)
    requires Rooted(g, v)
    ensures Synced(g, v, RootTab(g), -1)
  {
    hide Used, GetDinode, PutDinode, Complete, RootInode, RootBlock;
    forall k: nat | k < g.ninodes ensures OnDisk(g, v, k) == RootTab(g)[k] {
      Regions(g, k, 0);
      ZeroInode(k % IPB);
      if k == Links.ROOT {
        PutDinodeSame(ZeroBlock(), k % IPB, RootInode(g));
      } else if g.IBlock(k) == g.IBlock(Links.ROOT) {
        PutDinodeOther(ZeroBlock(), Links.ROOT % IPB, RootInode(g), k % IPB);
      }
    }
  }

  lemma RootAt(g: Geometry, v: Image, i: nat, p: nat)
    requires g.Ok() && i < g.ninodes && p < POSITIONS
    ensures At(v, RootTab(g)[i], p) == if i == Links.ROOT && p == 0 then g.DataStart() else 0
  {
    assert RootTab(g)[i].addrs[TABLE] == 0;
  }

  lemma RootOwns(g: Geometry, v: Image)
    requires Rooted(g, v)
    ensures Inv(g, v, RootTab(g), map[g.DataStart() := Slot(Links.ROOT, 0)], {})
  {
    hide Used, GetDinode, FirstInodes, Complete, RootBlock;
    var tab := RootTab(g);
    forall i: nat, p: nat | i < |tab| && p < POSITIONS
      ensures At(v, tab[i], p) == if i == Links.ROOT && p == 0 then g.DataStart() else 0
    {
      RootAt(g, v, i, p);
    }
    hide RootTab, At, RootInode;
  }

  lemma RootRight(g: Geometry, v: Image)
    requires Rooted(g, v)
    ensures Right(v, RootTab(g))
  {
    hide Used, FirstInodes, Complete, Entries, RootBlock, RootInode, Content, Filled, RootTab;
    var tab := RootTab(g);
    RootContent(g, v);
    RootEntries();
    forall i | 0 <= i < |tab| && i != Links.ROOT ensures WholeDir(v, tab[i]) && tab[i].addrs == NoAddrs() {
    }
    assert Whole(v, tab);
    Links.RootOnly(Nodes(v, tab));
  }

  lemma RootContent(g: Geometry, v: Image)
    requires Rooted(g, v)
    ensures RootInode(g).size == BSIZE && Filled(v, RootInode(g)) && Content(v, RootInode(g)) == RootBlock()
    ensures RootInode(g).typ == T_DIR && RootInode(g).nlink == 1
  {
    hide Used, FirstInodes, Complete, RootBlock;
    assert Content(v, RootInode(g)) == Peek(v, g.DataStart());
  }

  /** The root on disk: an ordinary directory with one link and one block of entries. */
  ghost predicate RootIs(g: Geometry, v: Image)
    requires g.Ok()
  {
    var d := OnDisk(g, v, Links.ROOT);
    && d == Dinode(T_DIR, 0, 0, 1, BSIZE, d.addrs) && d.addrs[0] == g.DataStart()
    && (forall p :: 1 <= p <= NDIRECT ==> d.addrs[p] == 0) && Content(v, d) == RootBlock()
  }

  lemma RootOnDisk(g: Geometry, v: Image)
    requires Rooted(g, v)
    ensures RootIs(g, v)
  {
    hide Used, FirstInodes, Complete, RootBlock, Content, GetDinode;
    RootSynced(g, v);
    RootContent(g, v);
    assert OnDisk(g, v, Links.ROOT) == RootTab(g)[Links.ROOT] == RootInode(g);
  }

  /** So the first mount finds a consistent disk with the right link counts. */
  lemma RootedRight(g: Geometry, v: Image)
    requires Rooted(g, v)
    ensures Consistent(g, v) && RightImage(g, v)
  {
    hide Inv, Synced, Right, Used, Complete, FirstInodes, RootTab;
    RootSynced(g, v);
    RootOwns(g, v);
    RootRight(g, v);
    SyncedTab(g, v, RootTab(g));
  }

  /** The super block as mkfs writes it: the words of the geometry. */
  function Super(g: Geometry, nblocks: uint, nlog: uint): (b: block)
    requires g.Ok()
    ensures Word(b, 0) == g.size && Word(b, 1) == nblocks && Word(b, 2) == g.ninodes && Word(b, 3) == nlog
  {
    PutWords(ZeroBlock(), 0, [g.size, nblocks, g.ninodes, nlog])
  }

  lemma FormatMarks(g: Geometry, v: Image, used: nat, b: nat)
    requires g.Ok() && g.DataStart() <= used <= BPB && b < g.size
    requires forall bi: nat :: bi < BPB ==> (BlockBit(Peek(v, g.BBlock(0)), bi) <==> bi < used)
    requires forall s: nat :: g.BBlock(0) < s < g.DataStart() ==> Peek(v, s) == ZeroBlock()
    ensures Used(g, v, b) <==> b < used
  {
    hide BlockBit;
    ZeroBits();
    BitmapRegion(g, b);
    if b < BPB {
      assert b / BPB == 0 && b % BPB == b;
    } else {
      assert b / BPB >= 1;
    }
  }

  /** The first loop of mkfs. */
  method ZeroDisk(size: nat) returns (v: Image)
    ensures forall s: nat :: s < size ==> s in v && v[s] == ZeroBlock()
  {
    v := map[];
    for i := 0 to size
      invariant forall s: nat :: s < i ==> s in v && v[s] == ZeroBlock()
    {
      v := v[i := ZeroBlock()];
    }
  }

  /** The blocks that mkfs writes after the zeroes. */
  function Written(g: Geometry, nblocks: uint, nlog: uint, zero: Image, buf: block): (v: Image)
    requires g.Ok()
  {
    zero[1 := Super(g, nblocks, nlog)]
        [g.IBlock(Links.ROOT) := FirstInodes(g)][g.DataStart() := RootBlock()][g.BBlock(0) := buf]
  }

  lemma WrittenRooted(g: Geometry, nblocks: uint, nlog: uint, zero: Image, buf: block)
    requires g.Ok() && Links.ROOT < g.ninodes && g.DataStart() < g.start && g.DataStart() + 1 <= BPB
    requires forall s: nat :: s < g.size ==> s in zero && zero[s] == ZeroBlock()
    requires forall bi: nat :: bi < BPB ==> (BlockBit(buf, bi) <==> bi < g.DataStart() + 1)
    ensures Rooted(g, Written(g, nblocks, nlog, zero, buf))
  {
    hide BlockBit, Word, Used, FirstInodes, RootInode, RootBlock;
    var v := Written(g, nblocks, nlog, zero, buf);
    Regions(g, Links.ROOT, 0);
    forall b: nat | b < g.size ensures Used(g, v, b) <==> b <= g.DataStart() {
      FormatMarks(g, v, g.DataStart() + 1, b);
    }
  }

  /** mkfs without files: a disk that is consistent, with the right link counts, and empty but for the root. */
  method Mkfs(g: Geometry, nblocks: uint, nlog: uint) returns (v: Image)
    requires g.Ok() && Links.ROOT < g.ninodes && g.DataStart() < g.start && g.DataStart() + 1 < BPB
    ensures 1 in v && Word(v[1], 0) == g.size && Word(v[1], 1) == nblocks
    ensures Word(v[1], 2) == g.ninodes && Word(v[1], 3) == nlog
    ensures Rooted(g, v) && Consistent(g, v) && RightImage(g, v) && RootIs(g, v)
  {
    hide BlockBit, Word, Consistent, RightImage, Rooted, FirstInodes, RootInode, RootBlock;
    var zero := ZeroDisk(g.size);
    var buf := Balloc(g.DataStart() + 1);
    WrittenRooted(g, nblocks, nlog, zero, buf);
    Regions(g, Links.ROOT, 0);
    v := Written(g, nblocks, nlog, zero, buf);
    RootedRight(g, v);
    RootOnDisk(g, v);
  }
}
