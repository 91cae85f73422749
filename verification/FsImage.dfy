/** What a file system image means: who owns each block, and the bytes of each file.

    `tab` is the inode table as the kernel currently sees it (a cached inode may be ahead of its disk copy), `owner`
    says where each allocated block is referenced, and `extra` holds blocks that balloc has handed out but nobody has
    linked. */
module FsImage {
  import opened Bytes
  import opened Layout
  import opened Recovery

  /** Positions of an inode that can hold a block: 0..11 direct, 12 the indirect table, 13.. the table's entries. */
  const TABLE: nat := NDIRECT
  const POSITIONS: nat := MAXFILE + 1

  datatype Slot = Slot(inum: nat, pos: nat)

  /** The position of the file's `bn`-th block. */
  function PosOf(bn: nat): (p: nat) {
    if bn < NDIRECT then bn else bn + 1
  }

  ghost predicate Complete(g: Geometry, v: Image)
    requires g.Ok()
  {
    && (forall s: nat :: s < g.start ==> s in v)
    && Word(v[1], 0) == g.size && Word(v[1], 2) == g.ninodes
  }

  function Peek(v: Image, s: nat): (b: block) {
    if s in v then v[s] else ZeroBlock()
  }

  /** The block number stored at position `p` of inode `d`; 0 means none. */
  function At(v: Image, d: Dinode, p: nat): (a: uint)
    requires |d.addrs| == NDIRECT + 1 && p < POSITIONS
  {
    if p <= TABLE then d.addrs[p]
    else if d.addrs[TABLE] == 0 then 0
    else Word(Peek(v, d.addrs[TABLE]), p - TABLE - 1)
  }

  /** The bitmap's verdict on block `b`. */
  ghost predicate Used(g: Geometry, v: Image, b: nat) {
    BlockBit(Peek(v, g.BBlock(b)), b % BPB)
  }

  ghost predicate Tables(g: Geometry, tab: seq<Dinode>) {
    |tab| == g.ninodes && forall i :: 0 <= i < |tab| ==> |tab[i].addrs| == NDIRECT + 1
  }

  /** Every referenced block has exactly one referencing position. */
  ghost predicate References(v: Image, tab: seq<Dinode>, owner: map<int, Slot>)
    requires forall i :: 0 <= i < |tab| ==> |tab[i].addrs| == NDIRECT + 1
  {
    forall i: nat, p: nat :: i < |tab| && p < POSITIONS && At(v, tab[i], p) != 0 ==>
      At(v, tab[i], p) in owner && owner[At(v, tab[i], p)] == Slot(i, p)
  }

  /** Block `b` is a data block and is referenced where `owner` says. */
  ghost predicate Referenced(g: Geometry, v: Image, tab: seq<Dinode>, at: Slot, b: int)
    requires forall i :: 0 <= i < |tab| ==> |tab[i].addrs| == NDIRECT + 1
  {
    g.DataStart() <= b < g.start && at.inum < |tab| && at.pos < POSITIONS && At(v, tab[at.inum], at.pos) == b
  }

  ghost predicate Owned(g: Geometry, v: Image, tab: seq<Dinode>, owner: map<int, Slot>)
    requires Tables(g, tab)
  {
    && References(v, tab, owner)
    && (forall b :: b in owner ==> Referenced(g, v, tab, owner[b], b))
  }

  /** A bitmap bit is set exactly for metadata blocks and allocated blocks. */
  ghost predicate Marked(g: Geometry, v: Image, owner: map<int, Slot>, extra: set<int>) {
    forall b: nat :: b < g.size ==> (Used(g, v, b) <==> b < g.DataStart() || b in owner || b in extra)
  }

  ghost predicate Inv(g: Geometry, v: Image, tab: seq<Dinode>, owner: map<int, Slot>, extra: set<int>) {
    && g.Ok()
    && Complete(g, v)
    && Tables(g, tab)
    && Owned(g, v, tab, owner)
    && Marked(g, v, owner, extra)
    && (forall b :: b in extra ==> g.DataStart() <= b < g.start && b !in owner)
  }

  // ---- the bytes of a file ---------------------------------------------------------------------------------

  function Blocks(size: nat): (n: nat) {
    (size + BSIZE - 1) / BSIZE
  }

  /** Every block below the file's size is allocated. */
  ghost predicate Filled(v: Image, d: Dinode)
    requires |d.addrs| == NDIRECT + 1
  {
    && d.size <= MAXFILE * BSIZE
    && forall bn: nat :: bn < Blocks(d.size) ==> At(v, d, PosOf(bn)) != 0
  }

  function ByteAt(v: Image, d: Dinode, k: nat): (x: byte)
    requires |d.addrs| == NDIRECT + 1 && k < MAXFILE * BSIZE
  {
    Peek(v, At(v, d, PosOf(k / BSIZE)))[k % BSIZE]
  }

  /** The file as one string of bytes. */
  function Content(v: Image, d: Dinode): (s: seq<byte>)
    requires |d.addrs| == NDIRECT + 1 && d.size <= MAXFILE * BSIZE
    ensures |s| == d.size
  {
    seq(d.size, k requires 0 <= k < d.size => ByteAt(v, d, k))
  }

  /** Inode `d` refers to the same blocks in both images and they hold the same data. */
  ghost predicate SameFile(v: Image, v': Image, d: Dinode)
    requires |d.addrs| == NDIRECT + 1
  {
    && (forall p: nat :: p < POSITIONS ==> At(v', d, p) == At(v, d, p))
    && (forall p: nat :: p < POSITIONS && p != TABLE && At(v, d, p) != 0 ==>
        Peek(v', At(v, d, p)) == Peek(v, At(v, d, p)))
  }

  lemma SameFileSameContent(v: Image, v': Image, d: Dinode)
    requires |d.addrs| == NDIRECT + 1 && SameFile(v, v', d) && Filled(v, d)
    ensures Filled(v', d) && Content(v', d) == Content(v, d)
  {
    forall k: nat | k < d.size ensures ByteAt(v', d, k) == ByteAt(v, d, k) {
      assert k / BSIZE < Blocks(d.size);
    }
  }

  ghost predicate SameFiles(v: Image, v': Image, tab: seq<Dinode>)
  {
    forall i :: 0 <= i < |tab| && |tab[i].addrs| == NDIRECT + 1 ==> SameFile(v, v', tab[i])
  }

  // ---- what each write to the image preserves --------------------------------------------------------------

  lemma UnownedWrite(g: Geometry, v: Image, tab: seq<Dinode>, owner: map<int, Slot>, s: nat, data: block)
    requires Tables(g, tab) && Owned(g, v, tab, owner) && s !in owner
    ensures SameFiles(v, v[s := data], tab) && Owned(g, v[s := data], tab, owner)
  {
    var v' := v[s := data];
    forall i: nat, p: nat | i < |tab| && p < POSITIONS ensures At(v', tab[i], p) == At(v, tab[i], p) {
      assert At(v, tab[i], TABLE) == tab[i].addrs[TABLE];
    }
  }

  /** The bitmap block of `b` with its bit switched. */
  ghost function MarkBit(g: Geometry, v: Image, b: nat, on: bool): (r: Image) {
    v[g.BBlock(b) := PutBit(Peek(v, g.BBlock(b)), b % BPB, on)]
  }

  lemma MarkBitUsed(g: Geometry, v: Image, b: nat, on: bool, x: nat)
    ensures Used(g, MarkBit(g, v, b, on), x) == if x == b then on else Used(g, v, x)
  {
    if g.BBlock(x) == g.BBlock(b) {
      assert x / BPB == b / BPB;
      assert x == b <==> x % BPB == b % BPB;
    }
  }

  lemma DataWriteUsed(g: Geometry, v: Image, s: nat, data: block, x: nat)
    requires g.Ok() && x < g.size && (s >= g.DataStart() || s < g.BBlock(0))
    ensures Used(g, v[s := data], x) == Used(g, v, x)
  {
  }

  /** What balloc does to the image: mark the block, then zero it. */
  ghost function AllocImage(g: Geometry, v: Image, b: nat): (r: Image) {
    MarkBit(g, v, b, true)[b := ZeroBlock()]
  }

  lemma AllocMarks(g: Geometry, v: Image, owner: map<int, Slot>, extra: set<int>, b: nat)
    requires g.Ok() && Marked(g, v, owner, extra) && b < g.start && !Used(g, v, b)
    ensures g.DataStart() <= b && b !in owner && b !in extra
    ensures Marked(g, AllocImage(g, v, b), owner, extra + {b})
  {
    forall x: nat | x < g.size ensures Used(g, AllocImage(g, v, b), x) == (x == b || Used(g, v, x)) {
      MarkBitUsed(g, v, b, true, x);
      DataWriteUsed(g, MarkBit(g, v, b, true), b, ZeroBlock(), x);
    }
  }

  /** balloc: a block nobody owned becomes one that nobody owns yet, and no file notices. */
  lemma AllocKeeps(g: Geometry, v: Image, tab: seq<Dinode>, owner: map<int, Slot>, extra: set<int>, b: nat)
    requires Inv(g, v, tab, owner, extra) && b < g.start && !Used(g, v, b)
    ensures g.DataStart() <= b && b !in owner && b !in extra
    ensures Inv(g, AllocImage(g, v, b), tab, owner, extra + {b})
    ensures SameFiles(v, AllocImage(g, v, b), tab)
  {
    hide Owned, Marked, Tables, Used, PutBit, SameFiles, Complete, ZeroBlock, Peek,
         Geometry.BBlock, Geometry.DataStart;
    BitmapRegion(g, b);
    AllocMarks(g, v, owner, extra, b);
    OwnedRange(g, v, tab, owner, g.BBlock(b));
    UnownedWrite(g, v, tab, owner, g.BBlock(b), PutBit(Peek(v, g.BBlock(b)), b % BPB, true));
    UnownedWrite(g, MarkBit(g, v, b, true), tab, owner, b, ZeroBlock());
    SameFilesTrans(v, MarkBit(g, v, b, true), AllocImage(g, v, b), tab);
    CompleteWrite(g, v, g.BBlock(b), PutBit(Peek(v, g.BBlock(b)), b % BPB, true));
    CompleteWrite(g, MarkBit(g, v, b, true), b, ZeroBlock());
  }

  lemma CompleteWrite(g: Geometry, v: Image, s: nat, data: block)
    requires g.Ok() && Complete(g, v) && s > 1
    ensures Complete(g, v[s := data])
  {
    hide Word;
  }

  lemma OwnedRange(g: Geometry, v: Image, tab: seq<Dinode>, owner: map<int, Slot>, b: nat)
    requires Tables(g, tab) && Owned(g, v, tab, owner)
    ensures b < g.DataStart() || b >= g.start ==> b !in owner
  {
  }

  lemma SameFilesTrans(v: Image, v': Image, v'': Image, tab: seq<Dinode>)
    requires SameFiles(v, v', tab) && SameFiles(v', v'', tab)
    ensures SameFiles(v, v'', tab)
  {
    forall i | 0 <= i < |tab| && |tab[i].addrs| == NDIRECT + 1 ensures SameFile(v, v'', tab[i]) {
      var d := tab[i];
      assert SameFile(v, v', d) && SameFile(v', v'', d);
    }
  }

  // ---- linking a fresh block -------------------------------------------------------------------------------

  /** The inode with position `p` set to `b`. */
  function WithAddr(d: Dinode, p: nat, b: uint): (r: Dinode)
    requires p < |d.addrs|
  {
    d.(addrs := d.addrs[p := b])
  }

  lemma WithAddrAt(v: Image, d: Dinode, p: nat, b: uint, q: nat)
    requires |d.addrs| == NDIRECT + 1 && p <= TABLE && d.addrs[p] == 0 && b != 0 && q < POSITIONS
    requires p == TABLE ==> Peek(v, b) == ZeroBlock()
    ensures At(v, WithAddr(d, p, b), q) == if q == p then b else At(v, d, q)
  {
    if p == TABLE && q > TABLE {
      ZeroBlockWords(q - TABLE - 1);
    }
  }

  /** Exactly one position changes, from empty to the fresh block `b`. */
  ghost predicate OnlyNew(v: Image, tab: seq<Dinode>, v': Image, tab': seq<Dinode>, i: nat, p: nat, b: uint)
    requires |tab'| == |tab| && forall k :: 0 <= k < |tab| ==> |tab[k].addrs| == |tab'[k].addrs| == NDIRECT + 1
  {
    forall j: nat, q: nat :: j < |tab| && q < POSITIONS ==>
      At(v', tab'[j], q) == if j == i && q == p then b else At(v, tab[j], q)
  }

  lemma ReferencesExtend(v: Image, tab: seq<Dinode>, owner: map<int, Slot>, v': Image, tab': seq<Dinode>, i: nat,
                         p: nat, b: uint)
    requires |tab'| == |tab| && forall k :: 0 <= k < |tab| ==> |tab[k].addrs| == |tab'[k].addrs| == NDIRECT + 1
    requires References(v, tab, owner) && OnlyNew(v, tab, v', tab', i, p, b) && b !in owner
    ensures References(v', tab', owner[b := Slot(i, p)])
  {
    hide At;
  }

  lemma OwnedExtend(g: Geometry, v: Image, tab: seq<Dinode>, owner: map<int, Slot>, v': Image, tab': seq<Dinode>,
                    i: nat, p: nat, b: uint)
    requires Tables(g, tab) && Tables(g, tab') && Owned(g, v, tab, owner) && i < |tab| && p < POSITIONS
    requires OnlyNew(v, tab, v', tab', i, p, b) && At(v, tab[i], p) == 0
    requires g.DataStart() <= b < g.start && b !in owner
    ensures Owned(g, v', tab', owner[b := Slot(i, p)])
  {
    hide At, References;
    ReferencesExtend(v, tab, owner, v', tab', i, p, b);
    var owner' := owner[b := Slot(i, p)];
    forall x | x in owner' ensures Referenced(g, v', tab', owner'[x], x) {
      if x != b {
        assert Referenced(g, v, tab, owner[x], x);
      }
    }
  }

  lemma LinkDirectOwned(g: Geometry, v: Image, tab: seq<Dinode>, owner: map<int, Slot>, i: nat, p: nat, b: uint)
    requires g.Ok() && Tables(g, tab) && Owned(g, v, tab, owner) && i < |tab| && p <= TABLE && tab[i].addrs[p] == 0
    requires g.DataStart() <= b < g.start && b !in owner
    requires p == TABLE ==> Peek(v, b) == ZeroBlock()
    ensures Owned(g, v, tab[i := WithAddr(tab[i], p, b)], owner[b := Slot(i, p)])
  {
    var tab' := tab[i := WithAddr(tab[i], p, b)];
    forall q: nat | q < POSITIONS ensures At(v, tab'[i], q) == if q == p then b else At(v, tab[i], q) {
      WithAddrAt(v, tab[i], p, b, q);
    }
    assert At(v, tab[i], p) == 0;
    hide At, Owned;
    OwnedExtend(g, v, tab, owner, v, tab', i, p, b);
  }

  /** bmap on a missing direct block (or on a missing table, which balloc has zeroed). */
  lemma LinkDirect(g: Geometry, v: Image, tab: seq<Dinode>, owner: map<int, Slot>, extra: set<int>, i: nat, p: nat,
                   b: uint)
    requires Inv(g, v, tab, owner, extra) && i < |tab| && p <= TABLE && tab[i].addrs[p] == 0 && b in extra
    requires p == TABLE ==> Peek(v, b) == ZeroBlock()
    ensures Inv(g, v, tab[i := WithAddr(tab[i], p, b)], owner[b := Slot(i, p)], extra - {b})
  {
    hide Owned, Used, Complete, Marked;
    LinkDirectOwned(g, v, tab, owner, i, p, b);
    MarkedLink(g, v, owner, extra, b, Slot(i, p));
  }

  lemma PutEntryAt(v: Image, d: Dinode, j: nat, b: uint, q: nat)
    requires |d.addrs| == NDIRECT + 1 && d.addrs[TABLE] != 0 && d.addrs[TABLE] in v && j < NINDIRECT && q < POSITIONS
    ensures var t := d.addrs[TABLE];
            At(v[t := PutWord(v[t], j, b)], d, q) == if q == TABLE + 1 + j then b else At(v, d, q)
  {
  }

  lemma TableWriteOther(g: Geometry, v: Image, tab: seq<Dinode>, owner: map<int, Slot>, i: nat, data: block, k: nat)
    requires g.Ok() && Tables(g, tab) && Owned(g, v, tab, owner) && i < |tab| && k < |tab| && k != i
    requires tab[i].addrs[TABLE] != 0
    ensures SameFile(v, v[tab[i].addrs[TABLE] := data], tab[k])
  {
    var t := tab[i].addrs[TABLE];
    assert At(v, tab[i], TABLE) == t;
    assert At(v, tab[k], TABLE) == tab[k].addrs[TABLE];
    forall p: nat | p < POSITIONS ensures At(v[t := data], tab[k], p) == At(v, tab[k], p) {
    }
  }

  lemma LinkEntryOwned(g: Geometry, v: Image, tab: seq<Dinode>, owner: map<int, Slot>, i: nat, j: nat, b: uint)
    requires g.Ok() && Tables(g, tab) && Owned(g, v, tab, owner) && i < |tab| && j < NINDIRECT
    requires var t := tab[i].addrs[TABLE]; t != 0 && t in v && Word(v[t], j) == 0
    requires g.DataStart() <= b < g.start && b !in owner
    ensures var t := tab[i].addrs[TABLE];
            Owned(g, v[t := PutWord(v[t], j, b)], tab, owner[b := Slot(i, TABLE + 1 + j)])
  {
    var t := tab[i].addrs[TABLE];
    var v' := v[t := PutWord(v[t], j, b)];
    forall k: nat, q: nat | k < |tab| && q < POSITIONS
      ensures At(v', tab[k], q) == if k == i && q == TABLE + 1 + j then b else At(v, tab[k], q)
    {
      if k == i {
        PutEntryAt(v, tab[i], j, b, q);
      } else {
        TableWriteOther(g, v, tab, owner, i, PutWord(v[t], j, b), k);
      }
    }
    hide At, PutWord, Owned;
    OwnedExtend(g, v, tab, owner, v', tab, i, TABLE + 1 + j, b);
  }

  /** bmap on a missing indirect block. */
  lemma LinkEntry(g: Geometry, v: Image, tab: seq<Dinode>, owner: map<int, Slot>, extra: set<int>, i: nat, j: nat,
                  b: uint)
    requires Inv(g, v, tab, owner, extra) && i < |tab| && j < NINDIRECT && b in extra
    requires var t := tab[i].addrs[TABLE]; t != 0 && t in v && Word(v[t], j) == 0
    ensures var t := tab[i].addrs[TABLE];
            Inv(g, v[t := PutWord(v[t], j, b)], tab, owner[b := Slot(i, TABLE + 1 + j)], extra - {b})
  {
    hide Owned, Used, Complete, PutWord, Marked, Word;
    var t := tab[i].addrs[TABLE];
    var v' := v[t := PutWord(v[t], j, b)];
    LinkEntryOwned(g, v, tab, owner, i, j, b);
    OwnedTable(g, v, tab, owner, i);
    CompleteWrite(g, v, t, PutWord(v[t], j, b));
    MarkedWrite(g, v, owner, extra, t, PutWord(v[t], j, b));
    MarkedLink(g, v', owner, extra, b, Slot(i, TABLE + 1 + j));
  }

  lemma MarkedLink(g: Geometry, v: Image, owner: map<int, Slot>, extra: set<int>, b: nat, at: Slot)
    requires Marked(g, v, owner, extra) && b in extra
    ensures Marked(g, v, owner[b := at], extra - {b})
  {
    hide Used;
  }

  lemma OwnedTable(g: Geometry, v: Image, tab: seq<Dinode>, owner: map<int, Slot>, i: nat)
    requires g.Ok() && Tables(g, tab) && Owned(g, v, tab, owner) && i < |tab| && tab[i].addrs[TABLE] != 0
    ensures g.DataStart() <= tab[i].addrs[TABLE] < g.start
  {
    assert At(v, tab[i], TABLE) == tab[i].addrs[TABLE];
  }

  lemma MarkedWrite(g: Geometry, v: Image, owner: map<int, Slot>, extra: set<int>, s: nat, data: block)
    requires g.Ok() && Marked(g, v, owner, extra) && (s >= g.DataStart() || s < g.BBlock(0))
    ensures Marked(g, v[s := data], owner, extra)
  {
    hide Used;
    var v' := v[s := data];
    forall x: nat | x < g.size ensures Used(g, v', x) <==> x < g.DataStart() || x in owner || x in extra {
      DataWriteUsed(g, v, s, data, x);
      assert Used(g, v, x) <==> x < g.DataStart() || x in owner || x in extra;
    }
  }

  // ---- writing data and inodes -----------------------------------------------------------------------------

  /** Overwriting a file's data block moves no block and touches no other file. */
  lemma DataWriteAt(g: Geometry, v: Image, tab: seq<Dinode>, owner: map<int, Slot>, i: nat, p: nat, data: block,
                    k: nat, q: nat)
    requires g.Ok() && Tables(g, tab) && Owned(g, v, tab, owner) && i < |tab| && p < POSITIONS && p != TABLE
    requires At(v, tab[i], p) != 0 && k < |tab| && q < POSITIONS
    ensures At(v[At(v, tab[i], p) := data], tab[k], q) == At(v, tab[k], q)
    ensures At(v, tab[k], q) != 0 && !(k == i && q == p) ==> At(v, tab[k], q) != At(v, tab[i], p)
  {
    assert At(v, tab[k], TABLE) == tab[k].addrs[TABLE];
  }

  lemma OwnedSame(g: Geometry, v: Image, tab: seq<Dinode>, owner: map<int, Slot>, v': Image)
    requires Tables(g, tab) && Owned(g, v, tab, owner)
    requires forall k: nat, q: nat :: k < |tab| && q < POSITIONS ==> At(v', tab[k], q) == At(v, tab[k], q)
    ensures Owned(g, v', tab, owner)
  {
    hide At;
  }

  lemma DataWriteKeeps(g: Geometry, v: Image, tab: seq<Dinode>, owner: map<int, Slot>, extra: set<int>, i: nat, p: nat,
                       data: block)
    requires Inv(g, v, tab, owner, extra) && i < |tab| && p < POSITIONS && p != TABLE && At(v, tab[i], p) != 0
    ensures var v' := v[At(v, tab[i], p) := data];
            && Inv(g, v', tab, owner, extra)
            && (forall k :: 0 <= k < |tab| && k != i ==> SameFile(v, v', tab[k]))
            && (forall q: nat :: q < POSITIONS ==> At(v', tab[i], q) == At(v, tab[i], q))
            && (forall q: nat :: q < POSITIONS && q != p && At(v, tab[i], q) != 0 ==>
                  Peek(v', At(v, tab[i], q)) == Peek(v, At(v, tab[i], q)))
  {
    hide At, Owned, Marked, Complete;
    var s := At(v, tab[i], p);
    var v' := v[s := data];
    forall k: nat, q: nat | k < |tab| && q < POSITIONS
      ensures At(v', tab[k], q) == At(v, tab[k], q)
      ensures At(v, tab[k], q) != 0 && !(k == i && q == p) ==> At(v, tab[k], q) != s
    {
      DataWriteAt(g, v, tab, owner, i, p, data, k, q);
    }
    OwnedAt(g, v, tab, owner, i, p);
    OwnedSame(g, v, tab, owner, v');
    CompleteWrite(g, v, s, data);
    MarkedWrite(g, v, owner, extra, s, data);
  }

  lemma OwnedAt(g: Geometry, v: Image, tab: seq<Dinode>, owner: map<int, Slot>, i: nat, p: nat)
    requires g.Ok() && Tables(g, tab) && Owned(g, v, tab, owner) && i < |tab| && p < POSITIONS && At(v, tab[i], p) != 0
    ensures 1 < g.DataStart() <= At(v, tab[i], p) < g.start
  {
    hide At;
    assert Referenced(g, v, tab, owner[At(v, tab[i], p)], At(v, tab[i], p));
  }

  /** Writing an inode block (or any block below the bitmap other than the super block) touches no file and no bit. */
  lemma InodeWriteKeeps(g: Geometry, v: Image, tab: seq<Dinode>, owner: map<int, Slot>, extra: set<int>, inum: nat,
                        data: block)
    requires Inv(g, v, tab, owner, extra) && inum < g.ninodes
    ensures Inv(g, v[g.IBlock(inum) := data], tab, owner, extra)
    ensures SameFiles(v, v[g.IBlock(inum) := data], tab)
  {
    hide Owned, Marked, Complete, SameFiles;
    OwnedRange(g, v, tab, owner, g.IBlock(inum));
    UnownedWrite(g, v, tab, owner, g.IBlock(inum), data);
    CompleteWrite(g, v, g.IBlock(inum), data);
    MarkedWrite(g, v, owner, extra, g.IBlock(inum), data);
  }

  // ---- freeing ---------------------------------------------------------------------------------------------

  lemma FreeMarks(g: Geometry, v: Image, owner: map<int, Slot>, extra: set<int>, b: nat)
    requires g.Ok() && Marked(g, v, owner, extra) && b !in owner && b in extra && g.DataStart() <= b < g.size
    ensures Used(g, v, b)
    ensures Marked(g, MarkBit(g, v, b, false), owner, extra - {b})
  {
    forall x: nat | x < g.size ensures Used(g, MarkBit(g, v, b, false), x) == (x != b && Used(g, v, x)) {
      MarkBitUsed(g, v, b, false, x);
    }
    hide Used;
  }

  /** bfree: the block's bit was set (so "freeing free block" cannot happen), and no file notices. */
  lemma FreeKeeps(g: Geometry, v: Image, tab: seq<Dinode>, owner: map<int, Slot>, extra: set<int>, b: nat)
    requires Inv(g, v, tab, owner, extra) && b in extra
    ensures Used(g, v, b)
    ensures Inv(g, MarkBit(g, v, b, false), tab, owner, extra - {b})
    ensures SameFiles(v, MarkBit(g, v, b, false), tab)
  {
    hide Owned, Marked, Tables, Used, PutBit, SameFiles, Complete, Peek, Geometry.BBlock, Geometry.DataStart;
    FreeMarks(g, v, owner, extra, b);
    BitmapRegion(g, b);
    OwnedRange(g, v, tab, owner, g.BBlock(b));
    UnownedWrite(g, v, tab, owner, g.BBlock(b), PutBit(Peek(v, g.BBlock(b)), b % BPB, false));
    CompleteWrite(g, v, g.BBlock(b), PutBit(Peek(v, g.BBlock(b)), b % BPB, false));
  }

  /** The blocks that inode `i` owns. */
  ghost function BlocksOf(owner: map<int, Slot>, i: nat): (s: set<int>) {
    set b | b in owner && owner[b].inum == i
  }

  /** An inode with no blocks and no bytes. */
  function Emptied(d: Dinode): (r: Dinode) {
    d.(size := 0, addrs := seq(NDIRECT + 1, _ => 0))
  }

  /** The blocks referenced from positions lo..hi-1. */
  ghost function AtSet(v: Image, d: Dinode, lo: nat, hi: nat): (s: set<int>)
    requires |d.addrs| == NDIRECT + 1 && hi <= POSITIONS
  {
    set p | lo <= p < hi && At(v, d, p) != 0 :: At(v, d, p)
  }

  lemma BlocksOfAll(g: Geometry, v: Image, tab: seq<Dinode>, owner: map<int, Slot>, i: nat)
    requires Tables(g, tab) && Owned(g, v, tab, owner) && i < |tab|
    ensures BlocksOf(owner, i) == AtSet(v, tab[i], 0, POSITIONS)
  {
    hide At;
    forall b | b in BlocksOf(owner, i) ensures b in AtSet(v, tab[i], 0, POSITIONS) {
      assert Referenced(g, v, tab, owner[b], b);
    }
  }

  /** Taking position `lo` away: its block is not referenced from any later one. */
  lemma AtSetNext(g: Geometry, v: Image, tab: seq<Dinode>, owner: map<int, Slot>, i: nat, lo: nat, hi: nat)
    requires Tables(g, tab) && Owned(g, v, tab, owner) && i < |tab| && lo < hi <= POSITIONS
    ensures At(v, tab[i], lo) == 0 ==> AtSet(v, tab[i], lo, hi) == AtSet(v, tab[i], lo + 1, hi)
    ensures At(v, tab[i], lo) != 0 ==>
              && At(v, tab[i], lo) in AtSet(v, tab[i], lo, hi)
              && AtSet(v, tab[i], lo, hi) - {At(v, tab[i], lo)} == AtSet(v, tab[i], lo + 1, hi)
  {
    hide At;
  }

  /** At the start of itrunc: the inode's blocks stop being references and become blocks to free. */
  lemma UnlinkInv(g: Geometry, v: Image, tab: seq<Dinode>, owner: map<int, Slot>, i: nat)
    requires Inv(g, v, tab, owner, {}) && i < |tab|
    ensures Inv(g, v, tab[i := Emptied(tab[i])], owner - BlocksOf(owner, i), BlocksOf(owner, i))
  {
    UnlinkAll(g, v, tab, owner, i);
    hide Owned, Used, Complete;
    forall b | b in BlocksOf(owner, i) ensures g.DataStart() <= b < g.start {
      OwnerRange(g, v, tab, owner, b);
    }
  }

  lemma OwnerRange(g: Geometry, v: Image, tab: seq<Dinode>, owner: map<int, Slot>, b: int)
    requires Tables(g, tab) && Owned(g, v, tab, owner) && b in owner
    ensures g.DataStart() <= b < g.start
  {
    assert Referenced(g, v, tab, owner[b], b);
  }

  /** itrunc drops all of an inode's references at once. */
  lemma UnlinkAll(g: Geometry, v: Image, tab: seq<Dinode>, owner: map<int, Slot>, i: nat)
    requires g.Ok() && Tables(g, tab) && Owned(g, v, tab, owner) && i < |tab|
    ensures Owned(g, v, tab[i := Emptied(tab[i])], owner - BlocksOf(owner, i))
  {
    var tab', owner' := tab[i := Emptied(tab[i])], owner - BlocksOf(owner, i);
    forall q: nat | q < POSITIONS ensures At(v, tab'[i], q) == 0 {
    }
    hide At;
    assert References(v, tab', owner');
    forall x | x in owner' ensures Referenced(g, v, tab', owner'[x], x) {
      assert Referenced(g, v, tab, owner[x], x);
    }
  }

  // ---- growing a file by a block ---------------------------------------------------------------------------

  /** No block of the inode, other than perhaps position `p`, has moved or changed; the table itself may gain entries.
      */
  ghost predicate Kept(v: Image, d: Dinode, v': Image, d': Dinode, p: nat)
    requires |d.addrs| == |d'.addrs| == NDIRECT + 1
  {
    && d' == d.(addrs := d'.addrs)
    && (forall q: nat :: q < POSITIONS && q != p && q != TABLE ==> At(v', d', q) == At(v, d, q))
    && (forall q: nat :: q < POSITIONS && q != TABLE && At(v, d, q) != 0 ==>
        Peek(v', At(v, d, q)) == Peek(v, At(v, d, q)))
  }

  /** Position `p` has just received a zeroed block. */
  ghost predicate Gained(v: Image, d: Dinode, v': Image, d': Dinode, p: nat)
    requires |d.addrs| == |d'.addrs| == NDIRECT + 1 && p < POSITIONS
  {
    At(v, d, p) == 0 && At(v', d', p) != 0 && Peek(v', At(v', d', p)) == ZeroBlock()
  }

  ghost predicate OthersSame(v: Image, tab: seq<Dinode>, v': Image, tab': seq<Dinode>, i: nat) {
    && |tab'| == |tab|
    && (forall k :: 0 <= k < |tab| && k != i ==> tab'[k] == tab[k])
    && (forall k :: 0 <= k < |tab| && k != i && |tab[k].addrs| == NDIRECT + 1 ==> SameFile(v, v', tab[k]))
  }

  /** Boot block, super block and inode blocks are untouched. */
  ghost predicate MetaSame(g: Geometry, v: Image, v': Image) {
    forall s: nat :: s < g.BBlock(0) ==> Peek(v', s) == Peek(v, s)
  }

  lemma MetaSameAlloc(g: Geometry, v: Image, b: nat)
    requires g.Ok() && g.DataStart() <= b
    ensures MetaSame(g, v, AllocImage(g, v, b))
  {
    hide PutBit, ZeroBlock;
    assert g.BBlock(b) >= g.BBlock(0);
  }

  lemma MetaSameWrite(g: Geometry, v: Image, v1: Image, s: nat, data: block)
    requires g.Ok() && g.DataStart() <= s && MetaSame(g, v, v1)
    ensures MetaSame(g, v, v1[s := data])
  {
  }

  /** balloc, and the new block becomes that of position `p`. */
  lemma GrowDirect(g: Geometry, v: Image, tab: seq<Dinode>, owner: map<int, Slot>, i: nat, p: nat, b: uint)
    requires Inv(g, v, tab, owner, {}) && Inv(g, AllocImage(g, v, b), tab, owner, {b})
             && SameFiles(v, AllocImage(g, v, b), tab)
    requires i < |tab| && p <= TABLE && tab[i].addrs[p] == 0
    ensures var v', d' := AllocImage(g, v, b), WithAddr(tab[i], p, b);
            && Inv(g, v', tab[i := d'], owner[b := Slot(i, p)], {})
            && Kept(v, tab[i], v', d', p)
            && Gained(v, tab[i], v', d', p)
            && OthersSame(v, tab, v', tab[i := d'], i)
  {
    hide Owned, Marked, Complete, MarkBit;
    var v', d' := AllocImage(g, v, b), WithAddr(tab[i], p, b);
    assert Peek(v', b) == ZeroBlock() && b != 0;
    LinkDirect(g, v', tab, owner, {b}, i, p, b);
    assert {b} - {b} == {};
    forall q: nat | q < POSITIONS ensures At(v', d', q) == if q == p then b else At(v, tab[i], q) {
      WithAddrAt(v', tab[i], p, b, q);
      assert SameFile(v, v', tab[i]);
    }
    assert SameFile(v, v', tab[i]);
  }

  /** Entry `j` of the indirect table becomes `b`. */
  ghost function EntryImage(v: Image, t: nat, j: nat, b: uint): (r: Image)
    requires j < NINDIRECT
  {
    v[t := PutWord(Peek(v, t), j, b)]
  }

  lemma EntryOthers(g: Geometry, v: Image, tab: seq<Dinode>, owner: map<int, Slot>, v1: Image, i: nat, j: nat, b: uint)
    requires g.Ok() && Tables(g, tab) && Owned(g, v1, tab, owner) && SameFiles(v, v1, tab)
    requires i < |tab| && j < NINDIRECT && tab[i].addrs[TABLE] != 0
    ensures OthersSame(v, tab, EntryImage(v1, tab[i].addrs[TABLE], j, b), tab, i)
  {
    hide Owned, At;
    var t := tab[i].addrs[TABLE];
    forall k | 0 <= k < |tab| && k != i ensures SameFile(v, EntryImage(v1, t, j, b), tab[k]) {
      TableWriteOther(g, v1, tab, owner, i, PutWord(Peek(v1, t), j, b), k);
      assert SameFile(v, v1, tab[k]);
    }
  }

  lemma EntryKept(g: Geometry, v: Image, tab: seq<Dinode>, owner: map<int, Slot>, v1: Image, i: nat, j: nat, b: uint)
    requires g.Ok() && Tables(g, tab) && Owned(g, v1, tab, owner) && SameFiles(v, v1, tab)
    requires i < |tab| && j < NINDIRECT && tab[i].addrs[TABLE] != 0 && tab[i].addrs[TABLE] in v1
    requires b != 0 && At(v, tab[i], TABLE + 1 + j) == 0 && b != tab[i].addrs[TABLE] && Peek(v1, b) == ZeroBlock()
    ensures var v2 := EntryImage(v1, tab[i].addrs[TABLE], j, b);
            Kept(v, tab[i], v2, tab[i], TABLE + 1 + j) && Gained(v, tab[i], v2, tab[i], TABLE + 1 + j)
  {
    hide Owned, PutWord, ZeroBlock;
    var t, d := tab[i].addrs[TABLE], tab[i];
    var v2 := EntryImage(v1, t, j, b);
    assert SameFile(v, v1, d);
    forall q: nat | q < POSITIONS ensures At(v2, d, q) == if q == TABLE + 1 + j then b else At(v, d, q) {
      PutEntryAt(v1, d, j, b, q);
    }
    forall q: nat | q < POSITIONS && q != TABLE && At(v, d, q) != 0
        ensures Peek(v2, At(v, d, q)) == Peek(v, At(v, d, q)) {
      DistinctPositions(g, v1, tab, owner, i, q, TABLE);
    }
  }

  /** Two positions of an inode never share a block. */
  lemma DistinctPositions(g: Geometry, v: Image, tab: seq<Dinode>, owner: map<int, Slot>, i: nat, p: nat, q: nat)
    requires Tables(g, tab) && Owned(g, v, tab, owner) && i < |tab| && p < POSITIONS && q < POSITIONS && p != q
    requires At(v, tab[i], p) != 0
    ensures At(v, tab[i], p) != At(v, tab[i], q)
  {
    hide At;
  }

  lemma GrowEntry(g: Geometry, v: Image, tab: seq<Dinode>, owner: map<int, Slot>, i: nat, j: nat, b: uint)
    requires Inv(g, v, tab, owner, {}) && Inv(g, AllocImage(g, v, b), tab, owner, {b})
             && SameFiles(v, AllocImage(g, v, b), tab)
    requires i < |tab| && j < NINDIRECT && tab[i].addrs[TABLE] != 0 && At(v, tab[i], TABLE + 1 + j) == 0
    ensures var v2 := EntryImage(AllocImage(g, v, b), tab[i].addrs[TABLE], j, b);
            && Inv(g, v2, tab, owner[b := Slot(i, TABLE + 1 + j)], {})
            && Kept(v, tab[i], v2, tab[i], TABLE + 1 + j)
            && Gained(v, tab[i], v2, tab[i], TABLE + 1 + j)
            && OthersSame(v, tab, v2, tab, i)
  {
    hide Owned, Marked, MarkBit, PutWord;
    var t, v1 := tab[i].addrs[TABLE], AllocImage(g, v, b);
    OwnedTable(g, v1, tab, owner, i);
    TableOwned(g, v1, tab, owner, i);
    assert SameFile(v, v1, tab[i]);
    assert At(v1, tab[i], TABLE + 1 + j) == Word(Peek(v1, t), j);
    LinkEntry(g, v1, tab, owner, {b}, i, j, b);
    assert {b} - {b} == {};
    EntryOthers(g, v, tab, owner, v1, i, j, b);
    assert Peek(v1, b) == ZeroBlock();
    EntryKept(g, v, tab, owner, v1, i, j, b);
  }

  lemma TableOwned(g: Geometry, v: Image, tab: seq<Dinode>, owner: map<int, Slot>, i: nat)
    requires Tables(g, tab) && Owned(g, v, tab, owner) && i < |tab| && tab[i].addrs[TABLE] != 0
    ensures tab[i].addrs[TABLE] in owner && owner[tab[i].addrs[TABLE]] == Slot(i, TABLE)
  {
    assert At(v, tab[i], TABLE) == tab[i].addrs[TABLE];
  }

  lemma KeptTrans(v: Image, d: Dinode, v1: Image, d1: Dinode, v2: Image, d2: Dinode, p: nat)
    requires |d.addrs| == |d1.addrs| == |d2.addrs| == NDIRECT + 1 && TABLE < p < POSITIONS && At(v, d, p) == 0
    requires Kept(v, d, v1, d1, TABLE) && Kept(v1, d1, v2, d2, p)
    ensures Kept(v, d, v2, d2, p)
  {
    hide At, Peek;
    forall q: nat | q < POSITIONS && q != TABLE && At(v, d, q) != 0
        ensures Peek(v2, At(v, d, q)) == Peek(v, At(v, d, q)) {
      assert At(v1, d1, q) == At(v, d, q);
    }
  }

  lemma OthersSameTrans(v: Image, tab: seq<Dinode>, v1: Image, tab1: seq<Dinode>, v2: Image, tab2: seq<Dinode>, i: nat)
    requires OthersSame(v, tab, v1, tab1, i) && OthersSame(v1, tab1, v2, tab2, i)
    ensures OthersSame(v, tab, v2, tab2, i)
  {
    forall k | 0 <= k < |tab| && k != i && |tab[k].addrs| == NDIRECT + 1 ensures SameFile(v, v2, tab[k]) {
      var d := tab[k];
      assert SameFile(v, v1, d) && SameFile(v1, v2, d);
    }
  }

  // ---- inodes on disk --------------------------------------------------------------------------------------

  /** Inode `inum` as the disk has it. */
  function OnDisk(g: Geometry, v: Image, inum: nat): (d: Dinode) {
    GetDinode(Peek(v, g.IBlock(inum)), inum % IPB)
  }

  /** Every cached inode other than `i` agrees with its disk copy. */
  ghost predicate Synced(g: Geometry, v: Image, tab: seq<Dinode>, i: int) {
    forall k: nat :: k < |tab| && k != i ==> OnDisk(g, v, k) == tab[k]
  }

  /** An image as it should be on disk: every block marked in use is metadata or belongs to just one position of an
      inode. */
  ghost predicate Consistent(g: Geometry, v: Image) {
    exists tab, owner :: Inv(g, v, tab, owner, {}) && Synced(g, v, tab, -1)
  }

  /** What iupdate does to the image. */
  ghost function UpdateImage(g: Geometry, v: Image, inum: nat, d: Dinode): (r: Image)
    requires |d.addrs| == NDIRECT + 1
  {
    v[g.IBlock(inum) := PutDinode(Peek(v, g.IBlock(inum)), inum % IPB, d)]
  }

  lemma UpdateOnDisk(g: Geometry, v: Image, inum: nat, d: Dinode, k: nat)
    requires |d.addrs| == NDIRECT + 1
    ensures OnDisk(g, UpdateImage(g, v, inum, d), k) == if k == inum then d else OnDisk(g, v, k)
  {
    hide GetDinode, PutDinode;
    if k == inum {
      PutDinodeSame(Peek(v, g.IBlock(inum)), inum % IPB, d);
    } else if g.IBlock(k) == g.IBlock(inum) {
      assert k % IPB != inum % IPB;
      PutDinodeOther(Peek(v, g.IBlock(inum)), inum % IPB, d, k % IPB);
    }
  }

  lemma SyncedUpdate(g: Geometry, v: Image, tab: seq<Dinode>, i: nat)
    requires i < |tab| && |tab[i].addrs| == NDIRECT + 1 && Synced(g, v, tab, i)
    ensures Synced(g, UpdateImage(g, v, i, tab[i]), tab, -1)
  {
    forall k: nat | k < |tab| ensures OnDisk(g, UpdateImage(g, v, i, tab[i]), k) == tab[k] {
      UpdateOnDisk(g, v, i, tab[i], k);
    }
  }

  lemma SyncedMeta(g: Geometry, v: Image, v': Image, tab: seq<Dinode>, tab': seq<Dinode>, i: int)
    requires g.Ok() && |tab| == |tab'| == g.ninodes && MetaSame(g, v, v') && Synced(g, v, tab, i)
    requires forall k :: 0 <= k < |tab| && k != i ==> tab'[k] == tab[k]
    ensures Synced(g, v', tab', i)
  {
    hide GetDinode;
    forall k: nat | k < |tab| && k != i ensures OnDisk(g, v', k) == tab'[k] {
      assert g.IBlock(k) < g.BBlock(0);
    }
  }
}
