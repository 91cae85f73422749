/** The user-level allocator of umalloc.c: a circular free list in address order, next fit, with coalescing.

    Addresses count bytes. A header is one unit of 8 bytes, and a block of `n` units starts with its header. */
module Malloc {
  /** sizeof(Header): a pointer and an unsigned int, 4 bytes each. */
  const UNIT: int := 8
  const WORD: int := 0x1_0000_0000

  /** Fewest units morecore asks for. */
  const CORE: int := 4096

  // ---- the size of a request --------------------------------------------------------------------------------

  /** The units for `nbytes` bytes, rounded up, and a header, in 32-bit unsigned arithmetic. */
  function Units(nbytes: int): (n: int)
    requires 0 <= nbytes < WORD
    ensures 1 <= n <= WORD / UNIT
  {
    (nbytes + UNIT - 1) % WORD / UNIT + 1
  }

  /** The units after the header hold the request exactly when rounding up does not wrap. */
  lemma UnitsSuffice(nbytes: int)
    requires 0 <= nbytes < WORD
    ensures UNIT * (Units(nbytes) - 1) >= nbytes <==> nbytes <= WORD - UNIT
    ensures nbytes <= WORD - UNIT ==> UNIT * (Units(nbytes) - 1) < nbytes + UNIT
  {
  }

  /** The largest request is granted a header and nothing else. */
  lemma UnitsWrap()
    ensures Units(WORD - 1) == 1
  {
  }

  function CoreUnits(nunits: int): (nu: int)
    ensures nu >= nunits && nu >= CORE
  {
    if nunits < CORE then CORE else nunits
  }

  /** The size of `nu` units in bytes, as the signed int that sbrk takes. */
  function SbrkArgument(nu: int): (n: int) {
    var m := nu * UNIT % WORD;
    if m < WORD / 2 then m else m - WORD
  }

  /** sbrk is asked for the right number of bytes exactly when that number is a positive int; otherwise it is asked to
      shrink the process or to do nothing. */
  lemma SbrkArgumentRight(nu: int)
    requires 1 <= nu <= WORD / UNIT
    ensures SbrkArgument(nu) == nu * UNIT <==> nu * UNIT < WORD / 2
    ensures nu * UNIT >= WORD / 2 ==> SbrkArgument(nu) <= 0
  {
  }

  // ---- blocks and the list they form ------------------------------------------------------------------------

  datatype Block = Block(at: int, units: int) {
    function End(): int {
      at + UNIT * units
    }

    predicate Holds(x: int) {
      at <= x < End()
    }
  }

  predicate Apart(b: Block, c: Block) {
    b.End() <= c.at || c.End() <= b.at
  }

  /** The free list: the base header, which has no units, then every free block in address order, no two touching. */
  ghost predicate Sorted(base: int, bs: seq<Block>) {
    && |bs| > 0 && bs[0] == Block(base, 0)
    && (forall i :: 0 < i < |bs| ==> bs[i].units >= 1)
    && (forall i, j :: 0 <= i < j < |bs| ==> bs[i].End() < bs[j].at)
  }

  function Succ(bs: seq<Block>, i: int): (b: Block)
    requires 0 <= i < |bs|
  {
    if i + 1 < |bs| then bs[i + 1] else bs[0]
  }

  /** The headers in memory spell out the list, and its end points back to its start. */
  ghost predicate Linked(ptr: map<int, int>, size: map<int, int>, bs: seq<Block>) {
    forall i {:trigger Succ(bs, i)} :: 0 <= i < |bs| ==>
      bs[i].at in ptr && bs[i].at in size && size[bs[i].at] == bs[i].units && ptr[bs[i].at] == Succ(bs, i).at
  }

  ghost predicate InFree(bs: seq<Block>, x: int) {
    exists i :: 0 <= i < |bs| && bs[i].Holds(x)
  }

  ghost predicate InLive(live: map<int, int>, x: int) {
    exists a :: a in live && Block(a, live[a]).Holds(x)
  }

  /** Every byte obtained from sbrk is in exactly one block: the blocks cover the arena and do not overlap. */
  ghost predicate Partition(base: int, bs: seq<Block>, live: map<int, int>, arena: set<int>) {
    && (forall x :: x in arena <==> InFree(bs, x) || InLive(live, x))
    && (forall a :: a in live ==> live[a] >= 1 && a > base)
    && (forall a, b :: a in live && b in live && a != b ==> Apart(Block(a, live[a]), Block(b, live[b])))
    && (forall a, i :: a in live && 0 < i < |bs| ==> Apart(Block(a, live[a]), bs[i]))
  }

  // ---- putting a block back ---------------------------------------------------------------------------------

  /** Free block `k` is the last one below `b`. */
  ghost predicate Before(bs: seq<Block>, k: int, b: Block) {
    0 <= k < |bs| && bs[k].at < b.at && (k + 1 < |bs| ==> b.at < bs[k + 1].at)
  }

  ghost predicate Fits(base: int, bs: seq<Block>, k: int, b: Block) {
    && Sorted(base, bs) && Before(bs, k, b) && b.units >= 1
    && forall i :: 0 < i < |bs| ==> Apart(b, bs[i])
  }

  /** Blocks `h` to `j` replaced by one. */
  function Replace(bs: seq<Block>, h: int, j: int, m: Block): (r: seq<Block>)
    requires 0 <= h <= j <= |bs|
  {
    bs[..h] + [m] + bs[j..]
  }

  lemma ReplaceSorted(base: int, bs: seq<Block>, h: int, j: int, m: Block)
    requires Sorted(base, bs) && 1 <= h <= j <= |bs| && m.units >= 1
    requires bs[h - 1].End() < m.at && (j < |bs| ==> m.End() < bs[j].at)
    ensures Sorted(base, Replace(bs, h, j, m))
  {
    var r := Replace(bs, h, j, m);
    forall i | 0 <= i < h ensures bs[i].End() < m.at {
      assert i == h - 1 || bs[i].End() < bs[h - 1].at <= bs[h - 1].End();
    }
    forall i | j <= i < |bs| ensures m.End() < bs[i].at {
      assert i == j || bs[j].at <= bs[j].End() < bs[i].at;
    }
    forall x, y | 0 <= x < y < |r| ensures r[x].End() < r[y].at {
      ReplaceAt(bs, h, j, m, x);
      ReplaceAt(bs, h, j, m, y);
    }
    forall x | 0 < x < |r| ensures r[x].units >= 1 {
      ReplaceAt(bs, h, j, m, x);
    }
  }

  lemma ReplaceAt(bs: seq<Block>, h: int, j: int, m: Block, x: int)
    requires 0 <= h <= j <= |bs| && 0 <= x < |Replace(bs, h, j, m)|
    ensures Replace(bs, h, j, m)[x] == if x < h then bs[x] else if x == h then m else bs[x - h - 1 + j]
  {
  }

  lemma InFreeConcat(a: seq<Block>, b: seq<Block>, x: int)
    ensures InFree(a + b, x) <==> InFree(a, x) || InFree(b, x)
  {
    if InFree(a, x) {
      var i :| 0 <= i < |a| && a[i].Holds(x);
      assert (a + b)[i].Holds(x);
    }
    if InFree(b, x) {
      var i :| 0 <= i < |b| && b[i].Holds(x);
      assert (a + b)[|a| + i].Holds(x);
    }
  }

  lemma InFreeOne(m: Block, x: int)
    ensures InFree([m], x) <==> m.Holds(x)
  {
    assert [m][0] == m;
  }

  lemma ReplaceCovers(bs: seq<Block>, h: int, j: int, m: Block, x: int)
    requires 0 <= h <= j <= |bs|
    ensures InFree(Replace(bs, h, j, m), x) <==> InFree(bs[..h], x) || m.Holds(x) || InFree(bs[j..], x)
    ensures InFree(bs, x) <==> InFree(bs[..h], x) || InFree(bs[h..j], x) || InFree(bs[j..], x)
  {
    hide InFree;
    InFreeConcat(bs[..h] + [m], bs[j..], x);
    InFreeConcat(bs[..h], [m], x);
    InFreeOne(m, x);
    assert bs[..h] + bs[h..j] + bs[j..] == bs;
    InFreeConcat(bs[..h] + bs[h..j], bs[j..], x);
    InFreeConcat(bs[..h], bs[h..j], x);
  }

  predicate JoinsNext(bs: seq<Block>, k: int, b: Block) {
    0 <= k && k + 1 < |bs| && b.End() == bs[k + 1].at
  }

  predicate JoinsPrev(bs: seq<Block>, k: int, b: Block) {
    0 <= k < |bs| && bs[k].End() == b.at
  }

  /** `b` with the free blocks it touches. */
  function Joined(bs: seq<Block>, k: int, b: Block): (m: Block)
    requires 0 <= k < |bs|
  {
    var c := if JoinsNext(bs, k, b) then Block(b.at, b.units + bs[k + 1].units) else b;
    if JoinsPrev(bs, k, b) then Block(bs[k].at, bs[k].units + c.units) else c
  }

  /** The list with `b` put back after block `k`. */
  function Insert(bs: seq<Block>, k: int, b: Block): (r: seq<Block>)
    requires 0 <= k < |bs|
  {
    var lo := if JoinsPrev(bs, k, b) then k else k + 1;
    var hi := if JoinsNext(bs, k, b) then k + 2 else k + 1;
    Replace(bs, lo, hi, Joined(bs, k, b))
  }

  /** Where `b` may touch its neighbours, and where they cannot touch each other. */
  lemma FitsGaps(base: int, bs: seq<Block>, k: int, b: Block)
    requires Fits(base, bs, k, b)
    ensures 0 <= k < |bs| && bs[k].End() <= b.at && bs[k].units >= 0
            && (bs[k].End() == b.at ==> k > 0 && bs[k - 1].End() < bs[k].at)
    ensures k + 1 < |bs| ==> b.End() <= bs[k + 1].at && bs[k + 1].units >= 1
    ensures k + 2 < |bs| ==> bs[k + 1].End() < bs[k + 2].at
  {
  }

  /** A block put back between its neighbours leaves the list in address order and coalesced. */
  lemma InsertSorted(base: int, bs: seq<Block>, k: int, b: Block)
    requires Fits(base, bs, k, b)
    ensures Sorted(base, Insert(bs, k, b))
  {
    var h, j := if JoinsPrev(bs, k, b) then k else k + 1, if JoinsNext(bs, k, b) then k + 2 else k + 1;
    FitsGaps(base, bs, k, b);
    hide Sorted, Fits, Before, Replace;
    ReplaceSorted(base, bs, h, j, Joined(bs, k, b));
  }

  /** It adds exactly the bytes of `b`. */
  lemma InsertCovers(base: int, bs: seq<Block>, k: int, b: Block, x: int)
    requires Fits(base, bs, k, b)
    ensures InFree(Insert(bs, k, b), x) <==> InFree(bs, x) || b.Holds(x)
  {
    var h, j := if JoinsPrev(bs, k, b) then k else k + 1, if JoinsNext(bs, k, b) then k + 2 else k + 1;
    ReplaceCovers(bs, h, j, Joined(bs, k, b), x);
    InFreeFew(bs, h, j, x);
  }

  lemma InFreeFew(bs: seq<Block>, h: int, j: int, x: int)
    requires 0 <= h <= j <= |bs| && j <= h + 2
    ensures InFree(bs[h..j], x) <==> (h < j && bs[h].Holds(x)) || (h + 1 < j && bs[h + 1].Holds(x))
  {
    if h < j {
      assert bs[h..j][0] == bs[h];
    }
    if h + 1 < j {
      assert bs[h..j][1] == bs[h + 1];
    }
  }

  lemma InsertFree(base: int, bs: seq<Block>, k: int, b: Block, c: Block)
    requires Fits(base, bs, k, b) && Apart(b, c) && c.units >= 1 && c.at > base && forall i :: 0 < i < |bs| ==>
             Apart(c, bs[i])
    ensures forall i :: 0 < i < |Insert(bs, k, b)| ==> Apart(c, Insert(bs, k, b)[i])
  {
  }

  lemma Outside(base: int, bs: seq<Block>, live: map<int, int>, arena: set<int>, a: int)
    requires Partition(base, bs, live, arena) && Sorted(base, bs) && a in live
    ensures forall i :: 0 <= i < |bs| ==> bs[i].at != a
  {
  }

  /** free moves a block's bytes from the live blocks to the free list and nothing else. */
  lemma ReleasePartition(base: int, bs: seq<Block>, live: map<int, int>, arena: set<int>, a: int, k: int)
    requires Partition(base, bs, live, arena) && Sorted(base, bs) && a in live && Before(bs, k, Block(a, live[a]))
    ensures Fits(base, bs, k, Block(a, live[a]))
    ensures Partition(base, Insert(bs, k, Block(a, live[a])), live - {a}, arena)
  {
    var b, live' := Block(a, live[a]), live - {a};
    var bs' := Insert(bs, k, b);
    forall x ensures x in arena <==> InFree(bs', x) || InLive(live', x) {
      InsertCovers(base, bs, k, b, x);
      InLiveWithout(live, a, x);
    }
    hide Insert, InFree, InLive;
    forall c | c in live' ensures forall i :: 0 < i < |bs'| ==> Apart(Block(c, live'[c]), bs'[i]) {
      assert Apart(b, Block(c, live[c]));
      InsertFree(base, bs, k, b, Block(c, live[c]));
    }
  }

  lemma InLiveWithout(live: map<int, int>, a: int, x: int)
    requires a in live
    ensures InLive(live, x) <==> InLive(live - {a}, x) || Block(a, live[a]).Holds(x)
  {
    var live' := live - {a};
    if InLive(live', x) {
      var c :| c in live' && Block(c, live'[c]).Holds(x);
      assert c in live;
    }
    if InLive(live, x) && !Block(a, live[a]).Holds(x) {
      var c :| c in live && Block(c, live[c]).Holds(x);
      assert c in live';
    }
  }

  // ---- taking a block ---------------------------------------------------------------------------------------

  /** Block `i` gives up its last `n` units, or leaves the list if it has no more. */
  function Take(bs: seq<Block>, i: int, n: int): (r: seq<Block>)
    requires 0 <= i < |bs|
  {
    if bs[i].units == n then bs[..i] + bs[i + 1..] else bs[i := Block(bs[i].at, bs[i].units - n)]
  }

  function Taken(b: Block, n: int): (r: Block) {
    Block(b.at + UNIT * (b.units - n), n)
  }

  lemma TakeAt(bs: seq<Block>, i: int, n: int, j: int)
    requires 0 < i < |bs| && 0 <= j < |Take(bs, i, n)|
    ensures bs[i].units == n ==> Take(bs, i, n)[j] == bs[if j < i then j else j + 1]
    ensures bs[i].units != n ==> Take(bs, i, n)[j] == if j == i then Block(bs[i].at, bs[i].units - n) else bs[j]
  {
  }

  lemma TakeSorted(base: int, bs: seq<Block>, i: int, n: int)
    requires Sorted(base, bs) && 0 < i < |bs| && bs[i].units >= n >= 1
    ensures Sorted(base, Take(bs, i, n))
  {
    forall j | 0 <= j < |Take(bs, i, n)| {
      TakeAt(bs, i, n, j);
    }
  }

  lemma TakeCovers(bs: seq<Block>, i: int, n: int, x: int)
    requires 0 < i < |bs| && bs[i].units >= n >= 1
    ensures InFree(bs, x) <==> InFree(Take(bs, i, n), x) || Taken(bs[i], n).Holds(x)
  {
    var m := Block(bs[i].at, bs[i].units - n);
    ReplaceCovers(bs, i, i + 1, m, x);
    InFreeFew(bs, i, i + 1, x);
    assert bs[i].Holds(x) <==> m.Holds(x) || Taken(bs[i], n).Holds(x);
    if bs[i].units == n {
      assert Take(bs, i, n) == bs[..i] + bs[i + 1..];
      InFreeConcat(bs[..i], bs[i + 1..], x);
    } else {
      assert Take(bs, i, n) == Replace(bs, i, i + 1, m);
    }
  }

  lemma InLiveWith(live: map<int, int>, a: int, n: int, x: int)
    requires a !in live
    ensures InLive(live[a := n], x) <==> InLive(live, x) || Block(a, n).Holds(x)
  {
    InLiveWithout(live[a := n], a, x);
    assert live[a := n] - {a} == live;
  }

  /** malloc moves bytes from the free list to a new live block and nothing else. */
  lemma TakePartition(base: int, bs: seq<Block>, live: map<int, int>, arena: set<int>, i: int, n: int)
    requires Partition(base, bs, live, arena) && Sorted(base, bs) && 0 < i < |bs| && bs[i].units >= n >= 1
    ensures Taken(bs[i], n).at !in live && Taken(bs[i], n).at > base
    ensures Partition(base, Take(bs, i, n), live[Taken(bs[i], n).at := n], arena)
  {
    var b := Taken(bs[i], n);
    var live', bs' := live[b.at := n], Take(bs, i, n);
    assert bs[0].End() < bs[i].at;
    forall a | a in live ensures Apart(Block(a, live[a]), b) && a != b.at {
      assert Apart(Block(a, live[a]), bs[i]);
    }
    forall x ensures x in arena <==> InFree(bs', x) || InLive(live', x) {
      TakeCovers(bs, i, n, x);
      InLiveWith(live, b.at, n, x);
    }
    forall a, j | a in live' && 0 < j < |bs'| ensures Apart(Block(a, live'[a]), bs'[j]) {
      TakeAt(bs, i, n, j);
      TakeApart(base, bs, i, n, j, Block(a, live'[a]));
    }
  }

  lemma TakeApart(base: int, bs: seq<Block>, i: int, n: int, j: int, c: Block)
    requires Sorted(base, bs) && 0 < i < |bs| && bs[i].units >= n >= 1 && 0 < j < |Take(bs, i, n)|
    requires c == Taken(bs[i], n) || forall h :: 0 < h < |bs| ==> Apart(c, bs[h])
    ensures Apart(c, Take(bs, i, n)[j])
  {
    TakeAt(bs, i, n, j);
  }

  /** Fresh core above everything so far, counted as live until it is put on the list. */
  lemma CorePartition(base: int, bs: seq<Block>, live: map<int, int>, arena: set<int>, top: int, p: int, nu: int)
    requires Partition(base, bs, live, arena) && Sorted(base, bs) && nu >= 1 && base < p && top <= p
    requires forall x :: x in arena ==> x < top
    ensures p !in live && Partition(base, bs, live[p := nu], arena + Region(p, nu))
  {
    var live' := live[p := nu];
    forall a | a in live ensures Block(a, live[a]).End() <= p {
      BelowTop(Block(a, live[a]), bs, live, base, arena, top);
    }
    forall i | 0 < i < |bs| ensures bs[i].End() <= p {
      BelowTop(bs[i], bs, live, base, arena, top);
    }
    forall x ensures x in arena + Region(p, nu) <==> InFree(bs, x) || InLive(live', x) {
      InLiveWith(live, p, nu, x);
    }
  }

  lemma BelowTop(b: Block, bs: seq<Block>, live: map<int, int>, base: int, arena: set<int>, top: int)
    requires Partition(base, bs, live, arena) && forall x :: x in arena ==> x < top
    requires b.units >= 1 && (b in bs || (b.at in live && live[b.at] == b.units))
    ensures b.End() <= top
  {
    var x := b.End() - 1;
    assert b.Holds(x);
    assert InFree(bs, x) || InLive(live, x);
  }

  ghost function Region(p: int, nu: int): (s: set<int>) {
    set x | p <= x < p + UNIT * nu && Block(p, nu).Holds(x)
  }

  // ---- the headers in memory --------------------------------------------------------------------------------

  predicate Agree(m: map<int, int>, m': map<int, int>, a: int) {
    a in m && a in m' && m'[a] == m[a]
  }

  lemma LinkedAt(ptr: map<int, int>, size: map<int, int>, bs: seq<Block>, i: int)
    requires Linked(ptr, size, bs) && 0 <= i < |bs|
    ensures bs[i].at in ptr && bs[i].at in size && size[bs[i].at] == bs[i].units && ptr[bs[i].at] == Succ(bs, i).at
  {
    assert Succ(bs, i) == Succ(bs, i);
  }

  lemma BeforeRange(bs: seq<Block>, k: int, b: Block)
    requires Before(bs, k, b)
    ensures 0 <= k < |bs|
  {
  }

  /** What the writes of free and malloc must achieve for the headers to spell out the new list. */
  lemma ReplaceLinked(ptr: map<int, int>, size: map<int, int>, base: int, bs: seq<Block>, h: int, j: int, m: Block,
                      ptr': map<int, int>, size': map<int, int>)
    requires Linked(ptr, size, bs) && 1 <= h <= j <= |bs| && bs[0].at == base
    requires m.at in size' && size'[m.at] == m.units
    requires m.at in ptr' && ptr'[m.at] == if j < |bs| then bs[j].at else base
    requires bs[h - 1].at in ptr' && ptr'[bs[h - 1].at] == m.at
    requires forall i :: 0 <= i < h - 1 || j <= i < |bs| ==> Agree(ptr, ptr', bs[i].at)
    requires forall i :: 0 <= i < h || j <= i < |bs| ==> Agree(size, size', bs[i].at)
    ensures Linked(ptr', size', Replace(bs, h, j, m))
  {
    var r := Replace(bs, h, j, m);
    forall i | 0 <= i < |r|
      ensures r[i].at in ptr' && r[i].at in size' && size'[r[i].at] == r[i].units && ptr'[r[i].at] == Succ(r, i).at
    {
      if i < h {
        assert r[i] == bs[i] && Succ(bs, i) == if i + 1 < |bs| then bs[i + 1] else bs[0];
      } else if i > h {
        var o := i - h - 1 + j;
        assert r[i] == bs[o] && Succ(bs, o) == if o + 1 < |bs| then bs[o + 1] else bs[0];
      }
    }
  }

  lemma RemoveLinked(ptr: map<int, int>, size: map<int, int>, base: int, bs: seq<Block>, i: int)
    requires Linked(ptr, size, bs) && Sorted(base, bs) && 0 < i < |bs|
    ensures Linked(ptr[bs[i - 1].at := Succ(bs, i).at], size, bs[..i] + bs[i + 1..])
  {
    var r, ptr' := bs[..i] + bs[i + 1..], ptr[bs[i - 1].at := Succ(bs, i).at];
    forall h | 0 <= h < |r|
      ensures r[h].at in ptr' && r[h].at in size && size[r[h].at] == r[h].units && ptr'[r[h].at] == Succ(r, h).at
    {
      var o := if h < i then h else h + 1;
      assert r[h] == bs[o] && Succ(bs, o) == if o + 1 < |bs| then bs[o + 1] else bs[0];
      assert o != i - 1 ==> bs[o].at != bs[i - 1].at;
    }
  }

  lemma ShrinkLinked(ptr: map<int, int>, size: map<int, int>, base: int, bs: seq<Block>, i: int, n: int)
    requires Linked(ptr, size, bs) && Sorted(base, bs) && 0 < i < |bs| && bs[i].units > n >= 1
    ensures Linked(ptr, size[bs[i].at := bs[i].units - n][Taken(bs[i], n).at := n],
            bs[i := Block(bs[i].at, bs[i].units - n)])
  {
    var r := bs[i := Block(bs[i].at, bs[i].units - n)];
    var size' := size[bs[i].at := bs[i].units - n][Taken(bs[i], n).at := n];
    forall h | 0 <= h < |r|
      ensures r[h].at in ptr && r[h].at in size' && size'[r[h].at] == r[h].units && ptr[r[h].at] == Succ(r, h).at
    {
      assert Succ(bs, h).at == Succ(r, h).at;
      assert h < i ==> bs[h].End() < bs[i].at;
      assert i < h ==> bs[i].End() < bs[h].at;
      assert bs[h].at == bs[h].End() - UNIT * bs[h].units;
    }
  }

  /** Where a block that is not on the list belongs. */
  lemma Place(base: int, bs: seq<Block>, b: Block) returns (k: int)
    requires Sorted(base, bs) && b.at > base && forall i :: 0 <= i < |bs| ==> bs[i].at != b.at
    ensures Before(bs, k, b)
  {
    k := |bs| - 1;
    while bs[k].at > b.at
      invariant 0 <= k < |bs| && (k + 1 < |bs| ==> b.at < bs[k + 1].at)
    {
      k := k - 1;
    }
  }

  /** free's loop stops at that place and nowhere else. */
  lemma StopsAt(base: int, bs: seq<Block>, i: int, k: int, b: Block)
    requires Sorted(base, bs) && 0 <= i < |bs| && Before(bs, k, b) && b.at > base
    ensures var p, q := bs[i].at, Succ(bs, i).at;
            p < b.at < q || (p >= q && (b.at > p || b.at < q)) <==> i == k
  {
    assert i < |bs| - 1 ==> bs[i].at <= bs[i].End() < bs[i + 1].at;
    assert i < k ==> bs[i].End() < bs[k].at;
    assert k < i ==> bs[k].End() < bs[i].at;
    assert i < k ==> i + 1 == k || bs[i + 1].End() < bs[k].at;
    assert k < i ==> k + 1 == i || bs[k + 1].End() < bs[i].at;
    assert 0 < i ==> bs[0].End() < bs[i].at;
    forall j | 0 <= j < |bs| ensures bs[j].at <= bs[j].End() {
    }
  }

  /** Steps from block `i` round the circle to block `k`. */
  function Gap(i: int, k: int, n: int): (d: int) {
    if i <= k then k - i else k - i + n
  }

  /** How free recognises the neighbours: the successor of the last block is the base, which `b` cannot touch. */
  lemma InsertTests(base: int, bs: seq<Block>, k: int, b: Block)
    requires Fits(base, bs, k, b)
    ensures JoinsNext(bs, k, b) <==> b.End() == Succ(bs, k).at
    ensures JoinsPrev(bs, k, b) ==> k > 0
    ensures bs[k].at != b.at && (k + 1 < |bs| ==> bs[k + 1].at != b.at && bs[k + 1].at != bs[k].at)
  {
  }

  lemma FitsDistinct(base: int, bs: seq<Block>, k: int, b: Block)
    requires Fits(base, bs, k, b)
    ensures 0 <= k < |bs| && bs[0].at == base
    ensures forall i :: 0 <= i < |bs| ==> bs[i].at != b.at && (i != k ==> bs[i].at != bs[k].at)
  {
    forall i | 0 <= i < |bs| ensures bs[i].at != b.at && (i != k ==> bs[i].at != bs[k].at) {
      assert i < k ==> bs[i].End() < bs[k].at;
      assert k < i ==> bs[k].End() < bs[i].at;
    }
  }

  lemma InsertHas(bs: seq<Block>, k: int, b: Block)
    requires 0 <= k < |bs|
    ensures k < |Insert(bs, k, b)| && Insert(bs, k, b)[k].at == bs[k].at
  {
  }

  lemma InsertBig(base: int, bs: seq<Block>, k: int, b: Block)
    requires Fits(base, bs, k, b)
    ensures exists j :: 0 < j < |Insert(bs, k, b)| && Insert(bs, k, b)[j].units >= b.units
  {
    InsertTests(base, bs, k, b);
    var h := if JoinsPrev(bs, k, b) then k else k + 1;
    assert Insert(bs, k, b)[h] == Joined(bs, k, b);
  }

  /** Writing a header above the list changes no header of the list. */
  lemma LinkedElsewhere(ptr: map<int, int>, size: map<int, int>, bs: seq<Block>, a: int, n: int)
    requires Linked(ptr, size, bs) && forall i :: 0 <= i < |bs| ==> bs[i].at != a
    ensures Linked(ptr, size[a := n], bs)
  {
    forall i | 0 <= i < |bs|
      ensures bs[i].at in ptr && bs[i].at in size && size[a := n][bs[i].at] == bs[i].units
              && ptr[bs[i].at] == Succ(bs, i).at
    {
      LinkedAt(ptr, size, bs, i);
    }
  }

  /** free's writes spell out the new list. */
  lemma InsertLinked(ptr: map<int, int>, size: map<int, int>, base: int, bs: seq<Block>, k: int, b: Block,
                     ptr': map<int, int>, size': map<int, int>)
    requires Fits(base, bs, k, b) && Linked(ptr, size, bs) && 0 <= k < |bs|
    requires var next := JoinsNext(bs, k, b);
             var c := if next then b.units + bs[k + 1].units else b.units;
             var after := if next then Succ(bs, k + 1).at else Succ(bs, k).at;
             if JoinsPrev(bs, k, b) then
               && ptr' == ptr[b.at := after][bs[k].at := after]
               && size' == (if next then size[b.at := c] else size)[bs[k].at := bs[k].units + c]
             else
               && ptr' == ptr[b.at := after][bs[k].at := b.at]
               && size' == (if next then size[b.at := c] else size) && b.at in size && size[b.at] == b.units
    ensures Linked(ptr', size', Insert(bs, k, b))
  {
    hide Linked, Fits, Sorted, Before;
    FitsDistinct(base, bs, k, b);
    var h, j := if JoinsPrev(bs, k, b) then k else k + 1, if JoinsNext(bs, k, b) then k + 2 else k + 1;
    var m := Joined(bs, k, b);
    InsertTests(base, bs, k, b);
    forall i | 0 <= i < |bs| ensures bs[i].at in ptr && bs[i].at in size {
      LinkedAt(ptr, size, bs, i);
    }
    LinkedAt(ptr, size, bs, h - 1);
    ReplaceLinked(ptr, size, base, bs, h, j, m, ptr', size');
  }

  /** The `c` blocks after block `f` are smaller than `n` units. */
  ghost predicate Scanned(bs: seq<Block>, f: int, c: int, n: int) {
    forall j :: 0 <= j < |bs| && 1 <= Gap(f, j, |bs|) <= c ==> bs[j].units < n
  }

  lemma ScannedStep(bs: seq<Block>, f: int, i: int, n: int)
    requires 0 <= f < |bs| && 0 <= i < |bs| && Scanned(bs, f, Gap(f, i, |bs|), n)
    ensures 0 <= Gap(f, i, |bs|) < |bs|
    ensures var j := if i + 1 < |bs| then i + 1 else 0;
            && (j == f <==> Gap(f, i, |bs|) == |bs| - 1)
            && (j != f && bs[j].units < n ==>
                  Gap(f, j, |bs|) == Gap(f, i, |bs|) + 1 && Scanned(bs, f, Gap(f, j, |bs|), n))
  {
  }

  lemma ScannedNone(bs: seq<Block>, f: int, n: int)
    ensures Gap(f, f, |bs|) == 0 && Scanned(bs, f, 0, n)
  {
  }

  /** The headers of the live blocks still hold their sizes. */
  ghost predicate Sizes(size: map<int, int>, live: map<int, int>) {
    forall a :: a in live ==> a in size && size[a] == live[a]
  }

  // ---- the allocator ----------------------------------------------------------------------------------------

  class Allocator {
    const base: int
    var freep: int
    var ptr: map<int, int>
    var size: map<int, int>
    ghost var bs: seq<Block>
    ghost var live: map<int, int>
    ghost var arena: set<int>
    ghost var top: int

    ghost predicate Valid()
      reads this
    {
      && base > 0 && base + UNIT <= top
      && (forall x :: x in arena ==> x < top)
      && (freep == 0 ==> live == map[] && arena == {})
      && (freep != 0 ==> Listed())
    }

    ghost predicate Listed()
      reads this
    {
      && Sorted(base, bs) && Linked(ptr, size, bs)
      && Partition(base, bs, live, arena) && Sizes(size, live)
      && (exists i :: 0 <= i < |bs| && bs[i].at == freep)
    }

    constructor (base: int, top: int)
      requires base > 0 && base + UNIT <= top
      ensures Valid() && freep == 0 && live == map[] && arena == {} && this.top == top && this.base == base
    {
      this.base := base;
      freep := 0;
      ptr, size := map[], map[];
      bs, live, arena, this.top := [], map[], {}, top;
    }

    /** free's search: the free block that `bp` goes after. */
    method Search(bp: int) returns (p: int, ghost k: int)
      requires Listed() && bp in live
      ensures Before(bs, k, Block(bp, live[bp])) && p == bs[k].at
    {
      hide Linked, Partition, Sorted, Sizes, Before;
      ghost var b := Block(bp, live[bp]);
      InLiveFacts(bp);
      k := Place(base, bs, b);
      p := freep;
      ghost var i :| 0 <= i < |bs| && bs[i].at == freep;
      BeforeRange(bs, k, b);
      LinkedAt(ptr, size, bs, i);
      StopsAt(base, bs, i, k, b);
      while !(bp > p && bp < ptr[p])
        invariant 0 <= i < |bs| && p == bs[i].at && p in ptr && ptr[p] == Succ(bs, i).at
        invariant var q := Succ(bs, i).at; p < bp < q || (p >= q && (bp > p || bp < q)) <==> i == k
        decreases Gap(i, k, |bs|)
      {
        if p >= ptr[p] && (bp > p || bp < ptr[p]) {
          break;
        }
        p := ptr[p];
        i := if i + 1 < |bs| then i + 1 else 0;
        LinkedAt(ptr, size, bs, i);
        StopsAt(base, bs, i, k, b);
      }
    }

    /** The rest of free: link the block in after `p`, joining what touches. */
    method Link(bp: int, p: int, ghost k: int)
      requires Listed() && bp in live && Before(bs, k, Block(bp, live[bp])) && p == bs[k].at
      modifies this`ptr, this`size, this`freep, this`bs, this`live
      ensures Listed() && freep == p && live == old(live) - {bp}
      ensures bs == Insert(old(bs), k, Block(bp, old(live[bp])))
    {
      hide Linked, Partition, Sorted, Insert;
      ghost var b := Block(bp, live[bp]);
      NotLive(k);
      ReleasePartition(base, bs, live, arena, bp, k);
      InsertSorted(base, bs, k, b);
      LinkedAt(ptr, size, bs, k);
      InsertTests(base, bs, k, b);
      if k + 1 < |bs| {
        LinkedAt(ptr, size, bs, k + 1);
      }
      var q := ptr[p];
      if bp + UNIT * size[bp] == q {
        size := size[bp := size[bp] + size[q]];
        ptr := ptr[bp := ptr[q]];
      } else {
        ptr := ptr[bp := q];
      }
      if p + UNIT * size[p] == bp {
        size := size[p := size[p] + size[bp]];
        ptr := ptr[p := ptr[bp]];
      } else {
        ptr := ptr[p := bp];
      }
      freep := p;
      InsertLinked(old(ptr), old(size), base, bs, k, b, ptr, size);
      InsertHas(bs, k, b);
      bs := Insert(bs, k, b);
      live := live - {bp};
    }

    /** free: exactly the given block stops being live. */
    method Free(ap: int)
      requires Valid() && ap - UNIT in live
      modifies this`ptr, this`size, this`freep, this`bs, this`live
      ensures Valid() && freep != 0 && live == old(live) - {ap - UNIT}
    {
      hide Linked, Partition, Sorted, Sizes;
      InLiveFacts(ap - UNIT);
      var p, k := Search(ap - UNIT);
      LinkedPositive(k);
      Link(ap - UNIT, p, k);
    }

    lemma LinkedPositive(k: int)
      requires Listed() && base > 0 && 0 <= k < |bs|
      ensures bs[k].at > 0
    {
    }

    /** morecore: `core` is what sbrk returned, or -1. */
    method Morecore(nunits: int, core: int) returns (q: int)
      requires Valid() && freep != 0 && nunits >= 1 && UNIT * CoreUnits(nunits) < WORD / 2
      requires core != -1 ==> top <= core
      modifies this
      ensures Valid() && freep != 0 && live == old(live)
      ensures core == -1 ==> q == 0 && freep == old(freep) && arena == old(arena) && bs == old(bs)
      ensures core != -1 ==>
                && q == freep && arena == old(arena) + Region(core, CoreUnits(nunits))
                && exists j :: 0 < j < |bs| && bs[j].units >= nunits
    {
      hide Linked, Partition, Sorted, Insert;
      if core == -1 {
        return 0;
      }
      var nu := CoreUnits(nunits);
      SbrkArgumentRight(nu);
      var hp := core;
      CorePartition(base, bs, live, arena, top, hp, nu);
      Outside(base, bs, live[hp := nu], arena + Region(hp, nu), hp);
      LinkedElsewhere(ptr, size, bs, hp, nu);
      size := size[hp := nu];
      live, arena := live[hp := nu], arena + Region(hp, nu);
      top := hp + SbrkArgument(nu);
      var p, k := Search(hp);
      LinkedPositive(k);
      ReleasePartition(base, bs, live, arena, hp, k);
      InsertBig(base, bs, k, Block(hp, nu));
      Link(hp, p, k);
      assert live == old(live);
      q := freep;
    }

    /** Some free block has `n` units. */
    ghost predicate Room(n: int)
      reads this
    {
      freep != 0 && exists i :: 0 < i < |bs| && bs[i].units >= n
    }

    /** malloc's cut: the tail of block `i`, or all of it. */
    method Cut(p0: int, prevp: int, nunits: int, ghost i: int) returns (p: int)
      requires Valid() && freep != 0 && 0 < i < |bs| && p0 == bs[i].at && prevp == bs[i - 1].at
               && bs[i].units >= nunits >= 1
      modifies this`ptr, this`size, this`freep, this`bs, this`live
      ensures Valid() && freep == prevp && freep != 0 && p == Taken(old(bs[i]), nunits).at
      ensures p !in old(live) && live == old(live)[p := nunits] && p > base
      ensures bs == Take(old(bs), i, nunits)
    {
      hide Linked, Partition, Sorted;
      p := p0;
      LinkedAt(ptr, size, bs, i);
      LinkedAt(ptr, size, bs, i - 1);
      LinkedPositive(i - 1);
      TakePartition(base, bs, live, arena, i, nunits);
      TakeSorted(base, bs, i, nunits);
      TakeAt(bs, i, nunits, i - 1);
      NotLive(i);
      if size[p] == nunits {
        RemoveLinked(ptr, size, base, bs, i);
        ptr := ptr[prevp := ptr[p]];
      } else {
        ShrinkLinked(ptr, size, base, bs, i, nunits);
        size := size[p := size[p] - nunits];
        p := p + UNIT * size[p];
        size := size[p := nunits];
      }
      freep := prevp;
      bs := Take(bs, i, nunits);
      live := live[p := nunits];
    }

    /** malloc: a new live block of `Units(nbytes)` units, taken from the free list, which grows by one sbrk (whose
        answer would be `core`) exactly when no free block is large enough; 0 exactly when that sbrk fails. */
    method Malloc(nbytes: int, core: int) returns (r: int, ghost calls: nat)
      requires Valid() && 0 <= nbytes < WORD && (Room(Units(nbytes)) || UNIT * CoreUnits(Units(nbytes)) < WORD / 2)
      requires core != -1 ==> top <= core
      modifies this
      ensures Valid() && freep != 0
      ensures calls == if old(Room(Units(nbytes))) then 0 else 1
      ensures r == 0 <==> calls == 1 && core == -1
      ensures r == 0 ==> live == old(live) && arena == old(arena)
      ensures r != 0 ==> r - UNIT !in old(live) && live == old(live)[r - UNIT := Units(nbytes)]
      ensures arena == if calls == 1
              && core != -1 then old(arena) + Region(core, CoreUnits(Units(nbytes))) else old(arena)
    {
      hide Linked, Partition, Sorted, Sizes, Units, Region, Gap, Scanned, Take, Taken;
      var nunits := Units(nbytes);
      var prevp := freep;
      if freep == 0 {
        Reset();
        prevp := base;
      }
      calls := 0;
      ghost var f :| 0 <= f < |bs| && bs[f].at == freep;
      ghost var i := f;
      ScannedNone(bs, f, nunits);
      LinkedAt(ptr, size, bs, i);
      var p := ptr[prevp];
      while true
        invariant Valid() && freep != 0 && live == old(live) && calls <= 1
        invariant calls == 0 ==> Room(nunits) == old(Room(nunits)) && arena == old(arena) && top == old(top)
        invariant calls == 1 ==>
                    !old(Room(nunits)) && Room(nunits) && core != -1
                        && arena == old(arena) + Region(core, CoreUnits(nunits))
        invariant 0 <= f < |bs| && bs[f].at == freep && 0 <= i < |bs| && prevp == bs[i].at && p == Succ(bs, i).at
        invariant Scanned(bs, f, Gap(f, i, |bs|), nunits)
        decreases 1 - calls, |bs| - Gap(f, i, |bs|)
      {
        ScannedStep(bs, f, i, nunits);
        ghost var c := Gap(f, i, |bs|);
        i := if i + 1 < |bs| then i + 1 else 0;
        LinkedAt(ptr, size, bs, i);
        if size[p] >= nunits {
          BaseUnits();
          p := Cut(p, prevp, nunits, i);
          return p + UNIT, calls;
        }
        if p == freep {
          SameIndex(f, i);
          NoRoom(nunits, f, c);
          p := Morecore(nunits, core);
          calls := 1;
          if p == 0 {
            return 0, calls;
          }
          f :| 0 <= f < |bs| && bs[f].at == freep;
          i := f;
          ScannedNone(bs, f, nunits);
          LinkedAt(ptr, size, bs, i);
        }
        prevp := p;
        p := ptr[p];
      }
    }

    /** The first call makes a list of the empty base block. */
    method Reset()
      requires Valid() && freep == 0
      modifies this`ptr, this`size, this`freep, this`bs
      ensures Valid() && freep == base && bs == [Block(base, 0)] && !Room(1)
    {
      ptr, size, freep := ptr[base := base], size[base := 0], base;
      bs := [Block(base, 0)];
      assert bs[0].at == freep;
    }

    lemma BaseUnits()
      requires Listed()
      ensures |bs| > 0 && bs[0].units == 0
    {
    }

    lemma SameIndex(f: int, i: int)
      requires Listed() && 0 <= f < |bs| && 0 <= i < |bs| && bs[f].at == bs[i].at
      ensures f == i
    {
    }

    lemma NoRoom(n: int, f: int, c: int)
      requires 0 <= f < |bs| && bs[f].units < n && Scanned(bs, f, c, n) && c == |bs| - 1
      ensures !Room(n)
    {
      forall j | 0 < j < |bs| ensures bs[j].units < n {
        assert j == f || 1 <= Gap(f, j, |bs|) <= c;
      }
    }

    lemma NotLive(k: int)
      requires Listed() && 0 <= k < |bs|
      ensures bs[k].at !in live
    {
      if bs[k].at in live {
        Outside(base, bs, live, arena, bs[k].at);
      }
    }

    lemma InLiveFacts(a: int)
      requires Listed() && a in live
      ensures |bs| > 0 && a > base && forall i :: 0 <= i < |bs| ==> bs[i].at != a
    {
      Outside(base, bs, live, arena, a);
    }
  }
}
