/** The on-disk format (fs.h): where things are, and how inodes and the free bitmap sit in blocks. */
module Layout {
  import opened Bytes

  const NDIRECT: nat := 12
  const NINDIRECT: nat := 128
  const MAXFILE: nat := NDIRECT + NINDIRECT
  const IPB: nat := 8
  const BPB: nat := 8 * BSIZE

  type ushort = x: int | 0 <= x < 0x1_0000

  /** Super block: `size` blocks in all, of which the log occupies those from `start` on. */
  datatype Geometry = Geometry(size: nat, ninodes: nat, start: nat) {
    function IBlock(inum: nat): nat { inum / IPB + 2 }
    function BBlock(b: nat): nat { b / BPB + ninodes / IPB + 3 }
    function DataStart(): nat { ninodes / IPB + 3 + size / BPB + 1 }
    predicate Ok() { DataStart() <= start <= size <= UINT_MAX && ninodes <= UINT_MAX }
  }

  /** The regions do not overlap. */
  lemma Regions(g: Geometry, inum: nat, b: nat)
    requires g.Ok() && inum < g.ninodes && b < g.size
    ensures 1 < g.IBlock(inum) < g.BBlock(0) <= g.BBlock(b) < g.DataStart()
  {
  }

  lemma NotEmpty(g: Geometry)
    requires g.Ok()
    ensures 0 < g.size
  {
  }

  lemma BitmapRegion(g: Geometry, b: nat)
    requires g.Ok() && b < g.size
    ensures 2 < g.BBlock(b) < g.DataStart()
  {
  }

  // ---- bits ------------------------------------------------------------------------------------------------

  /** Bit `k` of a byte. */
  predicate Bit(x: nat, k: nat) {
    if k == 0 then x % 2 == 1 else Bit(x / 2, k - 1)
  }

  /** The byte with bit `k` set. */
  function SetBit(x: nat, k: nat): (r: nat) {
    if k == 0 then x / 2 * 2 + 1 else SetBit(x / 2, k - 1) * 2 + x % 2
  }

  /** The byte with bit `k` cleared. */
  function ClearBit(x: nat, k: nat): (r: nat)
    ensures r <= x
  {
    if k == 0 then x / 2 * 2 else ClearBit(x / 2, k - 1) * 2 + x % 2
  }

  lemma {:induction false} SetBitAt(x: nat, k: nat, j: nat)
    ensures Bit(SetBit(x, k), j) == (j == k || Bit(x, j))
  {
    if k > 0 && j > 0 {
      SetBitAt(x / 2, k - 1, j - 1);
    }
  }

  lemma {:induction false} ClearBitAt(x: nat, k: nat, j: nat)
    ensures Bit(ClearBit(x, k), j) == (j != k && Bit(x, j))
  {
    if k > 0 && j > 0 {
      ClearBitAt(x / 2, k - 1, j - 1);
    }
  }

  function Pow2(n: nat): nat { if n == 0 then 1 else 2 * Pow2(n - 1) }

  lemma {:induction false} SetBitFits(x: nat, k: nat, n: nat)
    requires x < Pow2(n) && k < n
    ensures SetBit(x, k) < Pow2(n)
  {
    if k > 0 {
      SetBitFits(x / 2, k - 1, n - 1);
    }
  }

  lemma ByteSetBit(x: byte, k: nat)
    requires k < 8
    ensures SetBit(x, k) < 256
  {
    assert Pow2(8) == 256 by {
      assert Pow2(4) == 16;
    }
    SetBitFits(x, k, 8);
  }

  /** Bit `bi` of a bitmap block, and the block with that bit set or cleared. */
  predicate BlockBit(b: block, bi: nat)
    requires bi < BPB
  {
    Bit(b[bi / 8], bi % 8)
  }

  function PutBit(b: block, bi: nat, on: bool): (r: block)
    requires bi < BPB
    ensures forall bj: nat :: bj < BPB ==> BlockBit(r, bj) == if bj == bi then on else BlockBit(b, bj)
  {
    ByteSetBit(b[bi / 8], bi % 8);
    var x: byte := if on then SetBit(b[bi / 8], bi % 8) else ClearBit(b[bi / 8], bi % 8);
    assert forall bj: nat :: bj < BPB ==> BlockBit(b[bi / 8 := x], bj) == if bj == bi then on else BlockBit(b, bj) by {
      forall bj: nat | bj < BPB ensures BlockBit(b[bi / 8 := x], bj) == if bj == bi then on else BlockBit(b, bj) {
        SetBitAt(b[bi / 8], bi % 8, bj % 8);
        ClearBitAt(b[bi / 8], bi % 8, bj % 8);
      }
    }
    b[bi / 8 := x]
  }

  /** Bit `bi` of a bitmap block is bit `bi` modulo 8 of byte `bi / 8`, the lowest bit first. */
  lemma BitLayout(b: block, bi: nat)
    requires bi < BPB
    ensures BlockBit(b, bi) <==> b[bi / 8] / [1, 2, 4, 8, 16, 32, 64, 128][bi % 8] % 2 == 1
  {
    BitIs(b[bi / 8], bi % 8);
  }

  lemma {:induction false} BitIs(x: nat, k: nat)
    requires k < 8
    ensures Bit(x, k) <==> x / [1, 2, 4, 8, 16, 32, 64, 128][k] % 2 == 1
  {
    if k > 0 {
      BitIs(x / 2, k - 1);
    }
  }

  // ---- inodes ----------------------------------------------------------------------------------------------

  datatype Dinode = Dinode(typ: ushort, major: ushort, minor: ushort, nlink: ushort, size: uint, addrs: seq<uint>)

  /** Inode `k` of a block. */
  function GetDinode(b: block, k: nat): (d: Dinode)
    requires k < IPB
    ensures |d.addrs| == NDIRECT + 1
  {
    var w0: int, w1: int := Word(b, 16 * k), Word(b, 16 * k + 1);
    Dinode(w0 % 0x1_0000, w0 / 0x1_0000, w1 % 0x1_0000, w1 / 0x1_0000, Word(b, 16 * k + 2),
           seq<uint>(NDIRECT + 1, i requires 0 <= i <= NDIRECT => Word(b, 16 * k + 3 + i)))
  }

  /** struct dinode in bytes: four 16-bit fields, the size and the addresses, all little-endian, 64 bytes an inode. */
  lemma DinodeLayout(b: block, k: nat)
    requires k < IPB
    ensures var d, o := GetDinode(b, k), 64 * k;
            && d.typ == Two(b, o) && d.major == Two(b, o + 2) && d.minor == Two(b, o + 4) && d.nlink == Two(b, o + 6)
            && d.size == Four(b, o + 8) && forall i :: 0 <= i <= NDIRECT ==> d.addrs[i] == Four(b, o + 12 + 4 * i)
  {
    HalvesOf(b, 16 * k);
    HalvesOf(b, 16 * k + 1);
    HalvesOf(b, 16 * k + 2);
    hide Word, Two, Four;
    forall i | 0 <= i <= NDIRECT ensures GetDinode(b, k).addrs[i] == Four(b, 64 * k + 12 + 4 * i) {
      HalvesOf(b, 16 * k + 3 + i);
    }
  }

  /** The 16-bit number in two bytes from `o` on. */
  function Two(b: block, o: nat): (w: int)
    requires o + 2 <= BSIZE
  {
    var lo: int, hi: int := b[o], b[o + 1];
    lo + 0x100 * hi
  }

  /** The 32-bit number in four bytes from `o` on. */
  function Four(b: block, o: nat): (w: int)
    requires o + 4 <= BSIZE
  {
    Two(b, o) + 0x1_0000 * Two(b, o + 2)
  }

  lemma HalvesOf(b: block, i: nat)
    requires i < WORDS_PER_BLOCK
    ensures var w: int := Word(b, i);
            w == Four(b, 4 * i) && w % 0x1_0000 == Two(b, 4 * i) && w / 0x1_0000 == Two(b, 4 * i + 2)
  {
  }

  function PutWords(b: block, at: nat, ws: seq<uint>): (r: block)
    requires at + |ws| <= WORDS_PER_BLOCK
    ensures forall i: nat :: i < WORDS_PER_BLOCK ==>
              Word(r, i) == if at <= i < at + |ws| then ws[i - at] else Word(b, i)
  {
    if ws == [] then b else var n := |ws| - 1; PutWord(PutWords(b, at, ws[..n]), at + n, ws[n])
  }

  function DinodeWords(d: Dinode): (ws: seq<uint>) {
    var t: int, m: int, i: int, n: int := d.typ, d.major, d.minor, d.nlink;
    [t + 0x1_0000 * m, i + 0x1_0000 * n, d.size] + d.addrs
  }

  function PutDinode(b: block, k: nat, d: Dinode): (r: block)
    requires k < IPB && |d.addrs| == NDIRECT + 1
  {
    PutWords(b, 16 * k, DinodeWords(d))
  }

  /** iupdate's block update reads back as written, and leaves the other inodes of the block alone. */
  lemma PutDinodeSame(b: block, k: nat, d: Dinode)
    requires k < IPB && |d.addrs| == NDIRECT + 1
    ensures GetDinode(PutDinode(b, k, d), k) == d
  {
    var r, ws := PutDinode(b, k, d), DinodeWords(d);
    HalfWords(d.typ, d.major);
    HalfWords(d.minor, d.nlink);
    hide PutWords, DinodeWords, Word;
    assert forall i: nat :: i < 16 ==> Word(r, 16 * k + i) == ws[i];
    DinodeFromWords(r, k, d);
  }

  lemma HalfWords(x: ushort, y: ushort)
    ensures var a: int, b: int := x, y; (a + 0x1_0000 * b) % 0x1_0000 == a && (a + 0x1_0000 * b) / 0x1_0000 == b
  {
  }

  lemma DinodeFromWords(b: block, k: nat, d: Dinode)
    requires k < IPB && |d.addrs| == NDIRECT + 1
    requires forall i: nat :: i < 16 ==> Word(b, 16 * k + i) == DinodeWords(d)[i]
    ensures GetDinode(b, k) == d
  {
    HalfWords(d.typ, d.major);
    HalfWords(d.minor, d.nlink);
    hide Word;
    assert Word(b, 16 * k + 0) == DinodeWords(d)[0] && Word(b, 16 * k + 1) == DinodeWords(d)[1];
    assert Word(b, 16 * k + 2) == DinodeWords(d)[2] == d.size;
    forall i | 0 <= i <= NDIRECT ensures GetDinode(b, k).addrs[i] == d.addrs[i] {
      assert Word(b, 16 * k + (3 + i)) == DinodeWords(d)[3 + i];
    }
  }

  lemma PutDinodeOther(b: block, k: nat, d: Dinode, j: nat)
    requires k < IPB && |d.addrs| == NDIRECT + 1 && j < IPB && j != k
    ensures GetDinode(PutDinode(b, k, d), j) == GetDinode(b, j)
  {
    assert GetDinode(PutDinode(b, k, d), j).addrs == GetDinode(b, j).addrs;
  }
}
