/** How the block-by-block loop of writei adds up to one write into a string of bytes. */
module FileBytes {
  import opened Bytes
  import opened Layout
  import opened Recovery
  import opened FsImage

  const MAXBYTES: nat := MAXFILE * BSIZE

  /** The block with `bytes` written at `o`. */
  function Overwrite(b: block, o: nat, bytes: seq<byte>): (r: block)
    requires o + |bytes| <= BSIZE
  {
    b[..o] + bytes + b[o + |bytes|..]
  }

  /** `content` with `src` written at `off`, growing it if need be. */
  function Splice(content: seq<byte>, off: nat, src: seq<byte>): (r: seq<byte>)
    requires off <= |content|
    ensures |r| == if off + |src| > |content| then off + |src| else |content|
  {
    content[..off] + src + (if off + |src| < |content| then content[off + |src|..] else [])
  }

  /** What a write means to a later read: its own bytes where it wrote, and the old ones everywhere else. */
  lemma SpliceAt(content: seq<byte>, off: nat, src: seq<byte>, k: nat)
    requires off <= |content|
    ensures var r := Splice(content, off, src);
            && |r| == (if off + |src| > |content| then off + |src| else |content|)
            && (k < |r| ==> r[k] == if off <= k < off + |src| then src[k - off] else content[k])
  {
  }

  /** Number of blocks that `n` bytes at `off` touch. */
  function Covered(off: nat, n: nat): (c: nat) {
    if n == 0 then 0 else (off + n - 1) / BSIZE - off / BSIZE + 1
  }

  /** Number of blocks a file of `size` bytes lacks for holding `end` bytes. */
  function GrowBy(size: nat, end: nat): (k: nat) {
    if Blocks(end) > Blocks(size) then Blocks(end) - Blocks(size) else 0
  }

  /** Growing in two steps costs what growing in one does. */
  lemma GrowByTwice(size: nat, mid: nat, end: nat)
    requires mid <= end
    ensures GrowBy(size, mid) + GrowBy(if mid > size then mid else size, end) == GrowBy(size, end)
  {
  }

  /** A round that meets an unallocated block starts at a block boundary past the old end. */
  lemma GrowByStep(size: nat, off: nat, tot: nat, n: nat)
    requires tot < n && (tot == 0 || (off + tot) % BSIZE == 0) && off <= size
    requires (off + tot) / BSIZE >= Blocks(size)
    ensures GrowBy(size, off + (tot + Chunk(off, tot, n))) == GrowBy(size, off + tot) + 1
    ensures GrowBy(size, off + tot) + 1 <= GrowBy(size, off + n)
  {
  }

  lemma GrowByMore(size: nat, e1: nat, e2: nat)
    requires e1 <= e2
    ensures GrowBy(size, e1) <= GrowBy(size, e2)
  {
  }

  /** What one round of the loop moves. */
  function Chunk(off: nat, tot: nat, n: nat): (m: nat)
    requires tot < n
    ensures 0 < m <= n - tot && (off + tot) % BSIZE + m <= BSIZE
  {
    var room := BSIZE - (off + tot) % BSIZE;
    if n - tot < room then n - tot else room
  }

  lemma CoveredStep(off: nat, tot: nat, n: nat)
    requires tot < n && (tot == 0 || (off + tot) % BSIZE == 0)
    ensures Covered(off, tot + Chunk(off, tot, n)) == Covered(off, tot) + 1 <= Covered(off, n)
    ensures tot + Chunk(off, tot, n) == n || (off + (tot + Chunk(off, tot, n))) % BSIZE == 0
    ensures (off + tot) / BSIZE < Blocks(off + n)
  {
    var m, q, o := Chunk(off, tot, n), (off + tot) / BSIZE, (off + tot) % BSIZE;
    assert off + tot == BSIZE * q + o;
    BlockOf(off + (tot + m) - 1, q, o + m - 1);
    if tot > 0 {
      BlockOf(off + tot - 1, q - 1, BSIZE - 1);
    }
    BlockOrder(off + (tot + m) - 1, off + n - 1);
    if tot + m < n {
      BlockOf(off + (tot + m), q + 1, 0);
    }
    BlockOf(BSIZE * q + BSIZE, q + 1, 0);
    BlockOrder(BSIZE * q + BSIZE, off + n + BSIZE - 1);
  }

  lemma BlockOf(x: nat, q: nat, r: nat)
    requires x == BSIZE * q + r && r < BSIZE
    ensures x / BSIZE == q && x % BSIZE == r
  {
  }

  lemma BlockOrder(x: nat, y: nat)
    requires x <= y
    ensures x / BSIZE <= y / BSIZE
  {
  }

  /** Byte `k` of the file is allocated and has value `x`. */
  ghost predicate Holds(v: Image, d: Dinode, k: nat, x: byte)
    requires |d.addrs| == NDIRECT + 1
  {
    k < MAXBYTES && At(v, d, PosOf(k / BSIZE)) != 0 && ByteAt(v, d, k) == x
  }

  /** What byte `k` should be after `tot` bytes of `src` have been written at `off`. */
  function Expected(v0: Image, d0: Dinode, off: nat, src: seq<byte>, tot: nat, k: nat): (x: byte)
    requires |d0.addrs| == NDIRECT + 1 && tot <= |src| && k < MAXBYTES
  {
    if off <= k < off + tot then src[k - off] else ByteAt(v0, d0, k)
  }

  /** The loop of writei after `tot` bytes: those bytes are in place and all earlier contents are intact. */
  ghost predicate Written(v0: Image, d0: Dinode, v: Image, d: Dinode, off: nat, src: seq<byte>, tot: nat)
    requires |d0.addrs| == |d.addrs| == NDIRECT + 1 && tot <= |src|
  {
    && d == d0.(addrs := d.addrs)
    && (forall k: nat :: k < MAXBYTES && (k < d0.size || off <= k < off + tot) ==>
          Holds(v, d, k, Expected(v0, d0, off, src, tot, k)))
  }

  lemma WrittenStart(v: Image, d: Dinode, off: nat, src: seq<byte>)
    requires |d.addrs| == NDIRECT + 1 && Filled(v, d)
    ensures Written(v, d, v, d, off, src, 0)
  {
    forall k: nat | k < d.size ensures Holds(v, d, k, ByteAt(v, d, k)) {
      assert k / BSIZE < Blocks(d.size);
    }
  }

  lemma HoldsGrow(v: Image, d: Dinode, v': Image, d': Dinode, p: nat, k: nat, x: byte)
    requires |d.addrs| == |d'.addrs| == NDIRECT + 1 && p < POSITIONS
    requires Kept(v, d, v', d', p) && Gained(v, d, v', d', p) && Holds(v, d, k, x)
    ensures Holds(v', d', k, x)
  {
    var q := PosOf(k / BSIZE);
    assert q != TABLE && q < POSITIONS;
    assert At(v, d, q) != 0 && q != p;
    hide At;
  }

  /** Allocating a block changes no byte already there. */
  lemma WrittenGrow(v0: Image, d0: Dinode, v: Image, d: Dinode, off: nat, src: seq<byte>, tot: nat, v': Image,
                    d': Dinode, p: nat)
    requires |d0.addrs| == |d.addrs| == |d'.addrs| == NDIRECT + 1 && tot <= |src| && p < POSITIONS
    requires Written(v0, d0, v, d, off, src, tot)
    requires Kept(v, d, v', d', p) && Gained(v, d, v', d', p)
    ensures Written(v0, d0, v', d', off, src, tot)
  {
    hide Holds, Gained, At, ByteAt;
    forall k: nat | k < MAXBYTES && (k < d0.size || off <= k < off + tot)
      ensures Holds(v', d', k, Expected(v0, d0, off, src, tot, k))
    {
      HoldsGrow(v, d, v', d', p, k, Expected(v0, d0, off, src, tot, k));
    }
  }

  /** `v'` differs from `v` in one data block of the file, at position `p`. */
  ghost predicate OneBlock(v: Image, d: Dinode, v': Image, p: nat, b: block)
    requires |d.addrs| == NDIRECT + 1 && p < POSITIONS
  {
    && (forall q: nat :: q < POSITIONS ==> At(v', d, q) == At(v, d, q))
    && (forall q: nat :: q < POSITIONS && q != p && At(v, d, q) != 0 ==> Peek(v', At(v, d, q)) == Peek(v, At(v, d, q)))
    && At(v, d, p) != 0 && Peek(v', At(v, d, p)) == b
  }

  lemma HoldsChunk(v: Image, d: Dinode, v': Image, at: nat, bytes: seq<byte>, k: nat, x: byte)
    requires |d.addrs| == NDIRECT + 1 && at + |bytes| <= MAXBYTES && 0 < |bytes| && at % BSIZE + |bytes| <= BSIZE
    requires OneBlock(v, d, v', PosOf(at / BSIZE), Overwrite(Peek(v, At(v, d, PosOf(at / BSIZE))), at % BSIZE, bytes))
    ensures at <= k < at + |bytes| ==> Holds(v', d, k, bytes[k - at])
    ensures Holds(v, d, k, x) && !(at <= k < at + |bytes|) ==> Holds(v', d, k, x)
  {
    if k < MAXBYTES {
      var p, q := PosOf(at / BSIZE), PosOf(k / BSIZE);
      assert At(v', d, q) == At(v, d, q);
      if q == p {
        assert k / BSIZE == at / BSIZE;
      } else {
        assert k / BSIZE != at / BSIZE;
      }
      hide At;
    }
  }

  /** One round of the loop. */
  lemma WrittenChunk(v0: Image, d0: Dinode, v: Image, d: Dinode, off: nat, src: seq<byte>, tot: nat, v': Image)
    requires |d0.addrs| == |d.addrs| == NDIRECT + 1 && tot < |src| && off + |src| <= MAXBYTES
    requires Written(v0, d0, v, d, off, src, tot)
    requires var at, m := off + tot, Chunk(off, tot, |src|);
             OneBlock(v, d, v', PosOf(at / BSIZE),
                 Overwrite(Peek(v, At(v, d, PosOf(at / BSIZE))), at % BSIZE, src[tot..tot + m]))
    ensures Written(v0, d0, v', d, off, src, tot + Chunk(off, tot, |src|))
  {
    hide Holds, OneBlock, Overwrite, At, ByteAt;
    var at, m := off + tot, Chunk(off, tot, |src|);
    var bytes, tot' := src[tot..tot + m], tot + m;
    forall k: nat | k < MAXBYTES && (k < d0.size || off <= k < off + tot')
      ensures Holds(v', d, k, Expected(v0, d0, off, src, tot', k))
    {
      HoldsChunk(v, d, v', at, bytes, k, Expected(v0, d0, off, src, tot, k));
    }
  }

  /** When the loop is done, the file reads as one write into its old contents. */
  lemma WrittenContent(v0: Image, d0: Dinode, v: Image, d: Dinode, off: nat, src: seq<byte>)
    requires |d0.addrs| == |d.addrs| == NDIRECT + 1 && d0.size <= MAXBYTES && off <= d0.size && off + |src| <= MAXBYTES
    requires Written(v0, d0, v, d, off, src, |src|)
    ensures var size: uint := if off + |src| > d0.size then off + |src| else d0.size;
            Filled(v, d.(size := size)) && Content(v, d.(size := size)) == Splice(Content(v0, d0), off, src)
  {
    var size: uint := if off + |src| > d0.size then off + |src| else d0.size;
    var d' := d.(size := size);
    forall k: nat | k < size
      ensures At(v, d', PosOf(k / BSIZE)) != 0 && ByteAt(v, d', k) == Splice(Content(v0, d0), off, src)[k]
    {
      assert Holds(v, d, k, Expected(v0, d0, off, src, |src|, k));
    }
    forall bn: nat | bn < Blocks(size) ensures At(v, d', PosOf(bn)) != 0 {
      assert bn * BSIZE < size && (bn * BSIZE) / BSIZE == bn;
    }
    hide At;
  }

  /** One round of readi's loop copies the next stretch of the file. */
  lemma ReadChunk(v: Image, d: Dinode, at: nat, m: nat)
    requires |d.addrs| == NDIRECT + 1 && Filled(v, d) && at + m <= d.size && at % BSIZE + m <= BSIZE && 0 < m
    ensures at / BSIZE < Blocks(d.size) && at / BSIZE < MAXFILE
    ensures var data := Peek(v, At(v, d, PosOf(at / BSIZE)));
            data[at % BSIZE..at % BSIZE + m] == Content(v, d)[at..at + m]
  {
    hide At, Peek, Filled;
    FilledBytes(v, d);
    var data := Peek(v, At(v, d, PosOf(at / BSIZE)));
    forall k | at <= k < at + m ensures Content(v, d)[k] == data[at % BSIZE + (k - at)] {
      SameBlockIndex(at, k - at);
    }
  }

  lemma FilledBytes(v: Image, d: Dinode)
    requires |d.addrs| == NDIRECT + 1 && Filled(v, d)
    ensures d.size <= MAXBYTES
  {
  }

  lemma SameBlockIndex(at: nat, k: nat)
    requires at % BSIZE + k < BSIZE
    ensures (at + k) / BSIZE == at / BSIZE && (at + k) % BSIZE == at % BSIZE + k
  {
  }
}
