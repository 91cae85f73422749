/** The buffer cache (bio.c) over a disk whose sector writes are atomic (ide.c).

    `bufs` is the array of NBUF buffers followed by the list head, linked through
    `prev`/`next` indices exactly as the source links `struct buf`s by pointer.
    The ghost fields are what the cache is proved against: `flat` is the one copy of
    every sector that clients see, `order` is the list in most-recently-used order,
    `released` dates every buffer's last `brelse`, and `trace` is every disk state
    that a sector write has produced. */
module BufferCache {
  import opened Bytes

  const NBUF: nat := 10
  const HEAD: nat := NBUF
  const NODEV: nat := UINT_MAX

  datatype Addr = Addr(dev: nat, sector: nat)

  type Disk = map<Addr, block>

  datatype Buf = Buf(at: Addr, busy: bool, valid: bool, dirty: bool, data: block, prev: nat, next: nat)
  {
    predicate Live() { at.dev != NODEV }
    predicate Idle() { !busy && !dirty }
  }

  /** A buffer and the disk after the transfer that its flags ask for: a dirty buffer is written, any other is read. */
  function SyncedBuf(x: Buf, disk: Disk): (r: Buf) {
    x.(valid := true, dirty := false, data := if x.dirty || x.at !in disk then x.data else disk[x.at])
  }

  function SyncedDisk(x: Buf, disk: Disk): (r: Disk) {
    if x.dirty then disk[x.at := x.data] else disk
  }

  /** Following `next` from the head visits `order` and returns to the head, and `prev` is its inverse. */
  ghost predicate Linked(bufs: seq<Buf>, order: seq<nat>)
    requires |bufs| == NBUF + 1
  {
    && (forall i :: 0 <= i < |order| ==> order[i] < NBUF)
    && (forall i, j :: 0 <= i < j < |order| ==> order[i] != order[j])
    && bufs[HEAD].next == Succ(order, -1)
    && bufs[HEAD].prev == Pred(order, |order|)
    && (forall i {:trigger Succ(order, i)} :: 0 <= i < |order| ==> bufs[order[i]].next == Succ(order, i))
    && (forall i {:trigger Pred(order, i)} :: 0 <= i < |order| ==> bufs[order[i]].prev == Pred(order, i))
  }

  ghost function Succ(order: seq<nat>, i: int): (b: nat)
    requires -1 <= i < |order|
  {
    if i + 1 < |order| then order[i + 1] else HEAD
  }

  ghost function Pred(order: seq<nat>, i: int): (b: nat)
    requires 0 <= i <= |order|
  {
    if i > 0 then order[i - 1] else HEAD
  }

  /** The neighbours of `b` are linked to each other. */
  function Unlink(bufs: seq<Buf>, b: nat): (r: seq<Buf>)
    requires |bufs| == NBUF + 1 && b < NBUF
    requires bufs[b].next <= NBUF && bufs[b].prev <= NBUF && bufs[b].next != b && bufs[b].prev != b
    ensures |r| == |bufs|
    ensures forall c :: 0 <= c <= NBUF ==>
              r[c] == bufs[c].(next := if c == bufs[b].prev then bufs[b].next else bufs[c].next,
                               prev := if c == bufs[b].next then bufs[b].prev else bufs[c].prev)
  {
    var s := bufs[bufs[b].next := bufs[bufs[b].next].(prev := bufs[b].prev)];
    s[s[b].prev := s[s[b].prev].(next := s[b].next)]
  }

  /** `b` goes between the head and what followed it. */
  function PushFront(bufs: seq<Buf>, b: nat): (r: seq<Buf>)
    requires |bufs| == NBUF + 1 && b < NBUF
    requires bufs[HEAD].next <= NBUF && bufs[HEAD].next != b
    ensures |r| == |bufs|
    ensures forall c :: 0 <= c <= NBUF ==>
              r[c] == bufs[c].(next := if c == HEAD then b else if c == b then bufs[HEAD].next else bufs[c].next,
                               prev := if c == bufs[HEAD].next then b else if c == b then HEAD else bufs[c].prev)
  {
    var first := bufs[HEAD].next;
    var s := bufs[b := bufs[b].(next := first, prev := HEAD)];
    var t := s[first := s[first].(prev := b)];
    t[HEAD := t[HEAD].(next := b)]
  }

  ghost function Without(order: seq<nat>, i: nat): (r: seq<nat>)
    requires i < |order|
  {
    order[..i] + order[i + 1..]
  }

  ghost predicate SameContents(bufs: seq<Buf>, bufs': seq<Buf>) {
    && |bufs'| == |bufs|
    && forall c :: 0 <= c < |bufs| ==> bufs'[c] == bufs[c].(prev := bufs'[c].prev, next := bufs'[c].next)
  }

  lemma WithoutAt(order: seq<nat>, i: nat, k: nat)
    requires i < |order| && k < |order| - 1
    ensures Without(order, i)[k] == if k < i then order[k] else order[k + 1]
  {
  }

  lemma UnlinkLinkedAt(bufs: seq<Buf>, order: seq<nat>, i: nat, k: nat)
    requires |bufs| == NBUF + 1 && Linked(bufs, order) && i < |order| && k < |order| - 1
    requires Unlink.requires(bufs, order[i])
    ensures var r, w := Unlink(bufs, order[i]), Without(order, i);
            w[k] < NBUF && r[w[k]].next == Succ(w, k) && r[w[k]].prev == Pred(w, k)
  {
    hide Linked, Succ, Pred, Without;
    var k' := if k < i then k else k + 1;
    WithoutAt(order, i, k);
    LinkedAt(bufs, order, i);
    LinkedAt(bufs, order, k');
    WithoutNeighbours(bufs, order, i, k);
  }

  lemma LinkedAt(bufs: seq<Buf>, order: seq<nat>, i: nat)
    requires |bufs| == NBUF + 1 && Linked(bufs, order) && i < |order|
    ensures order[i] < NBUF && bufs[order[i]].next == Succ(order, i) && bufs[order[i]].prev == Pred(order, i)
  {
    var ends := (Succ(order, i), Pred(order, i));
  }

  /** The neighbours of what stays: those it had, except that the neighbours of what goes become each other's. */
  lemma WithoutNeighbours(bufs: seq<Buf>, order: seq<nat>, i: nat, k: nat)
    requires |bufs| == NBUF + 1 && Linked(bufs, order) && i < |order| && k < |order| - 1
    ensures var w, k' := Without(order, i), if k < i then k else k + 1;
            && Succ(w, k) == (if order[k'] == Pred(order, i) then Succ(order, i) else Succ(order, k'))
            && Pred(w, k) == (if order[k'] == Succ(order, i) then Pred(order, i) else Pred(order, k'))
  {
    WithoutAt(order, i, k);
    if k + 1 < |order| - 1 { WithoutAt(order, i, k + 1); }
    if k > 0 { WithoutAt(order, i, k - 1); }
    assert forall a, b :: 0 <= a < b < |order| ==> order[a] != order[b];
    hide Linked, Without;
    assert forall a :: 0 <= a < |order| ==> order[a] != HEAD;
  }

  lemma WithoutDistinct(order: seq<nat>, i: nat)
    requires i < |order| && forall k, l :: 0 <= k < l < |order| ==> order[k] != order[l]
    ensures var w := Without(order, i); forall k, l :: 0 <= k < l < |w| ==> w[k] != w[l]
    ensures order[i] !in Without(order, i)
    ensures forall b :: b in order && b != order[i] ==> b in Without(order, i)
  {
  }

  lemma UnlinkLinked(bufs: seq<Buf>, order: seq<nat>, i: nat)
    requires |bufs| == NBUF + 1 && Linked(bufs, order) && i < |order|
    requires Unlink.requires(bufs, order[i])
    ensures Linked(Unlink(bufs, order[i]), Without(order, i))
  {
    var r, w := Unlink(bufs, order[i]), Without(order, i);
    WithoutDistinct(order, i);
    forall k: nat | k < |w|
      ensures w[k] < NBUF && r[w[k]].next == Succ(w, k) && r[w[k]].prev == Pred(w, k)
    {
      UnlinkLinkedAt(bufs, order, i, k);
    }
    UnlinkEnds(bufs, order, i);
  }

  lemma UnlinkEnds(bufs: seq<Buf>, order: seq<nat>, i: nat)
    requires |bufs| == NBUF + 1 && Linked(bufs, order) && i < |order|
    requires Unlink.requires(bufs, order[i])
    ensures var r, w := Unlink(bufs, order[i]), Without(order, i);
            r[HEAD].next == Succ(w, -1) && r[HEAD].prev == Pred(w, |w|)
  {
    var ends := (Succ(order, i), Pred(order, i));
    if |order| > 1 {
      WithoutAt(order, i, 0);
      WithoutAt(order, i, |order| - 2);
    }
  }

  lemma EmptyLinked(bufs: seq<Buf>)
    requires |bufs| == NBUF + 1 && bufs[HEAD].next == HEAD && bufs[HEAD].prev == HEAD
    ensures Linked(bufs, [])
  {
  }

  lemma LinkedEnds(bufs: seq<Buf>, order: seq<nat>)
    requires |bufs| == NBUF + 1 && Linked(bufs, order)
    ensures bufs[HEAD].next == Succ(order, -1) <= NBUF && bufs[HEAD].prev == Pred(order, |order|) <= NBUF
  {
  }

  /** The list depends on the links alone. */
  lemma LinkedByLinks(bufs: seq<Buf>, bufs': seq<Buf>, order: seq<nat>)
    requires |bufs| == |bufs'| == NBUF + 1 && Linked(bufs, order)
    requires forall c :: 0 <= c <= NBUF ==> bufs'[c].next == bufs[c].next && bufs'[c].prev == bufs[c].prev
    ensures Linked(bufs', order)
  {
  }

  lemma PushFrontLinked(bufs: seq<Buf>, order: seq<nat>, b: nat)
    requires |bufs| == NBUF + 1 && Linked(bufs, order) && b < NBUF && b !in order
    requires PushFront.requires(bufs, b)
    ensures Linked(PushFront(bufs, b), [b] + order)
  {
    var r, w := PushFront(bufs, b), [b] + order;
    forall k | 0 <= k < |w|
      ensures r[w[k]].next == Succ(w, k) && r[w[k]].prev == Pred(w, k)
    {
      if k > 0 {
        assert w[k] == order[k - 1];
        var links := (Succ(order, k - 1), Pred(order, k - 1));
      }
    }
  }

  /** The relinking that brelse does. */
  function MoveToFront(bufs: seq<Buf>, b: nat): (r: seq<Buf>)
    requires Unlink.requires(bufs, b) && PushFront.requires(Unlink(bufs, b), b)
  {
    PushFront(Unlink(bufs, b), b)
  }

  lemma MoveToFrontReady(bufs: seq<Buf>, order: seq<nat>, i: nat)
    requires |bufs| == NBUF + 1 && Linked(bufs, order) && i < |order|
    ensures order[i] < NBUF && MoveToFront.requires(bufs, order[i])
    ensures SameContents(bufs, MoveToFront(bufs, order[i]))
  {
    var ends := (Succ(order, i), Pred(order, i));
    assert Unlink.requires(bufs, order[i]);
  }

  lemma MoveToFrontLinked(bufs: seq<Buf>, order: seq<nat>, i: nat)
    requires |bufs| == NBUF + 1 && Linked(bufs, order) && i < |order|
    requires order[i] < NBUF && MoveToFront.requires(bufs, order[i])
    ensures Linked(MoveToFront(bufs, order[i]), [order[i]] + Without(order, i))
  {
    hide Linked, Without, Unlink, PushFront;
    UnlinkLinked(bufs, order, i);
    LinkedDistinct(bufs, order);
    WithoutDistinct(order, i);
    PushFrontLinked(Unlink(bufs, order[i]), Without(order, i), order[i]);
  }

  lemma LinkedDistinct(bufs: seq<Buf>, order: seq<nat>)
    requires |bufs| == NBUF + 1 && Linked(bufs, order)
    ensures forall i :: 0 <= i < |order| ==> order[i] < NBUF
    ensures forall i, j :: 0 <= i < j < |order| ==> order[i] != order[j]
  {
  }

  lemma MoveToFrontOrder(order: seq<nat>, released: seq<nat>, clock: nat, i: nat)
    requires Permutation(order) && Dated(order, released, clock) && i < |order|
    ensures Permutation([order[i]] + Without(order, i))
    ensures Dated([order[i]] + Without(order, i), released[order[i] := clock + 1], clock + 1)
  {
    WithoutDistinct(order, i);
    var w := Without(order, i);
    forall k | 0 <= k < |w| ensures w[k] == if k < i then order[k] else order[k + 1] {
      WithoutAt(order, i, k);
    }
  }

  ghost predicate Permutation(order: seq<nat>) {
    && |order| == NBUF
    && (forall i :: 0 <= i < |order| ==> order[i] < NBUF)
    && (forall i, j :: 0 <= i < j < |order| ==> order[i] != order[j])
    && (forall b: nat :: b < NBUF ==> b in order)
  }

  lemma DescendingIsPermutation(order: seq<nat>)
    requires |order| == NBUF && forall i :: 0 <= i < NBUF ==> order[i] == NBUF - 1 - i
    ensures Permutation(order)
  {
    forall b: nat | b < NBUF ensures b in order {
      assert order[NBUF - 1 - b] == b;
    }
  }

  /** The list is in order of release, latest first. */
  ghost predicate Dated(order: seq<nat>, released: seq<nat>, clock: nat) {
    && |released| == NBUF
    && (forall i :: 0 <= i < |order| ==> order[i] < NBUF)
    && (forall b :: 0 <= b < NBUF ==> released[b] <= clock)
    && (forall i, j :: 0 <= i < j < |order| ==> released[order[i]] > released[order[j]])
  }

  ghost predicate Cached(bufs: seq<Buf>, a: Addr)
    requires |bufs| == NBUF + 1
  {
    exists b :: 0 <= b < NBUF && bufs[b].at == a && bufs[b].valid
  }

  /** At most one buffer per sector, and every client-visible sector has one value:
      the valid buffer's when there is one, the disk's otherwise. A buffer nobody holds
      is either dirty (pinned) or equal to its sector on disk. */
  ghost predicate Coherent(bufs: seq<Buf>, disk: Disk, flat: Disk)
    requires |bufs| == NBUF + 1
  {
    && flat.Keys == disk.Keys
    && (forall b, c :: 0 <= b < c < NBUF && bufs[b].Live() && bufs[c].Live() ==> bufs[b].at != bufs[c].at)
    && (forall b :: 0 <= b < NBUF && bufs[b].Live() ==> bufs[b].at in disk)
    && (forall b :: 0 <= b < NBUF && bufs[b].Live() && !bufs[b].busy ==> bufs[b].valid)
    && (forall b :: 0 <= b < NBUF && (bufs[b].valid || bufs[b].busy || bufs[b].dirty) ==> bufs[b].Live())
    && (forall b :: 0 <= b < NBUF && bufs[b].dirty ==> bufs[b].valid)
    && (forall b :: 0 <= b < NBUF && bufs[b].valid ==> flat[bufs[b].at] == bufs[b].data)
    && (forall b :: 0 <= b < NBUF && bufs[b].valid && bufs[b].Idle() ==> disk[bufs[b].at] == bufs[b].data)
    && (forall a :: a in disk && flat[a] != disk[a] ==> Cached(bufs, a))
  }

  class Cache {
    var bufs: seq<Buf>
    var disk: Disk
    ghost var flat: Disk
    ghost var order: seq<nat>
    ghost var released: seq<nat>
    ghost var clock: nat
    ghost var trace: seq<Disk>

    ghost predicate Valid()
      reads this
    {
      && |bufs| == NBUF + 1
      && trace != [] && trace[|trace| - 1] == disk
      && Permutation(order)
      && Linked(bufs, order)
      && Coherent(bufs, disk, flat)
      && |released| == NBUF
      && Dated(order, released, clock)
    }

    /** bget neither sleeps (the sector's buffer is not held) nor panics (else some buffer can be recycled). */
    ghost predicate Available(a: Addr)
      reads this
      requires |bufs| == NBUF + 1
    {
      (exists b :: 0 <= b < NBUF && bufs[b].at == a) || (exists b :: 0 <= b < NBUF && bufs[b].Idle())
    }

    /** Sectors whose buffer some caller holds (B_BUSY). */
    ghost function Held(): set<Addr>
      reads this
    {
      HeldIn(bufs)
    }

    /** Sectors whose buffer must not be recycled because it is newer than the disk (B_DIRTY). */
    ghost function Pinned(): set<Addr>
      reads this
    {
      PinnedIn(bufs)
    }

    /** `b` is the buffer that bread returned for `a` and brelse has not yet taken back. */
    ghost predicate Holds(b: nat, a: Addr)
      reads this
    {
      b < NBUF < |bufs| && bufs[b].at == a && bufs[b].busy && bufs[b].valid
    }

    /** What a client may rely on without looking at the buffers. */
    lemma Facts()
      requires Valid()
      ensures flat.Keys == disk.Keys && trace != [] && trace[|trace| - 1] == disk
      ensures Held() <= disk.Keys && Pinned() <= disk.Keys
      ensures forall a :: a in disk && a !in Held() && a !in Pinned() ==> flat[a] == disk[a]
    {
      forall a | a in disk && a !in Held() && a !in Pinned() ensures flat[a] == disk[a] {
        CleanSector(bufs, disk, flat, a);
      }
    }

    lemma HeldData(b: nat, a: Addr)
      requires Valid() && Holds(b, a)
      ensures a in flat && a in disk && bufs[b].data == flat[a] && a in Held()
    {
    }

    constructor (disk: Disk)
      ensures Valid()
      ensures this.disk == disk && flat == disk && trace == [disk]
      ensures Held() == {} && Pinned() == {}
    {
      hide Permutation, Coherent, Linked;
      var none := Buf(Addr(NODEV, 0), false, false, false, ZeroBlock(), HEAD, HEAD);
      var bs := seq(NBUF + 1, _ => none);
      ghost var ord: seq<nat> := [];
      EmptyLinked(bs);
      var b := 0;
      while b < NBUF
        invariant 0 <= b <= NBUF
        invariant |bs| == NBUF + 1
        invariant forall c :: 0 <= c <= NBUF ==> bs[c].at.dev == NODEV && !bs[c].busy && !bs[c].dirty && !bs[c].valid
        invariant |ord| == b && forall i :: 0 <= i < b ==> ord[i] == b - 1 - i
        invariant Linked(bs, ord)
      {
        LinkedEnds(bs, ord);
        PushFrontLinked(bs, ord, b);
        bs := PushFront(bs, b);
        ord := [b] + ord;
        b := b + 1;
      }
      DescendingIsPermutation(ord);
      NothingCached(bs, disk);
      assert HeldIn(bs) == {} && PinnedIn(bs) == {};
      this.bufs := bs;
      this.disk := disk;
      this.flat := disk;
      this.order := ord;
      this.released := seq(NBUF, i => i);
      this.clock := NBUF;
      this.trace := [disk];
    }

    /** The first scan of bget: the buffer assigned to `a`, or the list head. */
    method Lookup(a: Addr) returns (b: nat)
      requires Valid()
      ensures b <= NBUF
      ensures b != HEAD ==> bufs[b].at == a
      ensures b == HEAD ==> forall c :: 0 <= c < NBUF ==> bufs[c].at != a
    {
      hide Coherent;
      b := bufs[HEAD].next;
      ghost var i := 0;
      while b != HEAD && bufs[b].at != a
        invariant 0 <= i <= NBUF && b == Succ(order, i - 1)
        invariant forall j :: 0 <= j < i ==> bufs[order[j]].at != a
        decreases NBUF - i
      {
        b := bufs[b].next;
        i := i + 1;
      }
      if b == HEAD {
        forall c: nat | c < NBUF ensures bufs[c].at != a {
          assert c in order;
        }
      }
    }

    /** The second scan of bget, from the tail: the least recently released buffer that
        is neither held nor dirty. */
    method Victim() returns (b: nat)
      requires Valid() && exists c :: 0 <= c < NBUF && bufs[c].Idle()
      ensures b < NBUF && bufs[b].Idle()
      ensures forall c :: 0 <= c < NBUF && bufs[c].Idle() ==> released[b] <= released[c]
    {
      hide Coherent;
      b := bufs[HEAD].prev;
      ghost var i := NBUF;
      while b != HEAD && !bufs[b].Idle()
        invariant 0 <= i <= NBUF && b == Pred(order, i)
        invariant forall j :: i <= j < NBUF ==> !bufs[order[j]].Idle()
        decreases i
      {
        b := bufs[b].prev;
        i := i - 1;
      }
      forall c: nat | c < NBUF && bufs[c].Idle() ensures b != HEAD && released[b] <= released[c] {
        assert c in order;
      }
    }

    /** bget, up to its sleep or its return: the sector's own buffer when it is cached, otherwise a recycled one. It
        sleeps, to start again, exactly when the sector's buffer is held. */
    method Bget(a: Addr) returns (b: nat, sleeps: bool)
      requires Valid() && a.dev != NODEV && a in disk
      requires Available(a)
      modifies this`bufs
      ensures Valid() && b < NBUF && bufs[b].at == a && bufs[b].busy
      ensures sleeps <==> exists c :: 0 <= c < NBUF && old(bufs)[c].at == a && old(bufs)[c].busy
      ensures sleeps ==> bufs == old(bufs)
      ensures !sleeps ==> !old(bufs)[b].busy && bufs[b].valid == (exists c :: 0 <= c < NBUF && old(bufs)[c].at == a)
      ensures !sleeps && bufs[b].valid ==> bufs == old(bufs)[b := old(bufs)[b].(busy := true)]
      ensures !sleeps && !bufs[b].valid ==>
                && bufs == old(bufs)[b := old(bufs)[b].(at := a, busy := true, valid := false, dirty := false)]
                && old(bufs)[b].Idle()
                && (forall c :: 0 <= c < NBUF && old(bufs)[c].Idle() ==> released[b] <= released[c])
    {
      hide Coherent, Linked;
      b := Lookup(a);
      sleeps := b != HEAD && bufs[b].busy;
      if sleeps {
        return;
      }
      if b != HEAD {
        OneBuffer(bufs, disk, flat, b);
        CoherentHit(bufs, disk, flat, b);
        LinkedByLinks(bufs, bufs[b := bufs[b].(busy := true)], order);
        bufs := bufs[b := bufs[b].(busy := true)];
      } else {
        b := Victim();
        CoherentRecycle(bufs, disk, flat, b, a);
        LinkedByLinks(bufs, bufs[b := bufs[b].(at := a, busy := true, valid := false, dirty := false)], order);
        bufs := bufs[b := bufs[b].(at := a, busy := true, valid := false, dirty := false)];
      }
    }

    /** iderw: write a dirty buffer to its sector, otherwise fill an invalid one from it. */
    method Iderw(b: nat)
      requires Valid() && b < NBUF && bufs[b].busy && (bufs[b].dirty || !bufs[b].valid)
      modifies this`bufs, this`disk, this`trace
      ensures Valid()
      ensures old(bufs)[b].at in old(disk)
      ensures bufs == old(bufs)[b := SyncedBuf(old(bufs)[b], old(disk))] && disk == SyncedDisk(old(bufs)[b], old(disk))
      ensures trace == if old(bufs)[b].dirty then old(trace) + [disk] else old(trace)
    {
      hide Linked, Coherent, Permutation;
      CoherentSync(bufs, disk, flat, b);
      var d: block := if bufs[b].dirty then bufs[b].data else disk[bufs[b].at];
      LinkedByLinks(bufs, bufs[b := bufs[b].(valid := true, dirty := false, data := d)], order);
      assert !bufs[b].dirty ==> disk[bufs[b].at := d] == disk;
      if bufs[b].dirty {
        disk := disk[bufs[b].at := d];
        trace := trace + [disk];
      }
      bufs := bufs[b := bufs[b].(valid := true, dirty := false, data := d)];
    }

    /** bread: hold the sector's buffer with the contents clients are to see. */
    method Bread(a: Addr) returns (b: nat)
      requires Valid() && a.dev != NODEV && a in disk
      requires a !in Held() && |Held() + Pinned() + {a}| <= NBUF
      modifies this`bufs, this`disk, this`trace
      ensures Valid()
      ensures disk == old(disk) && trace == old(trace)
      ensures Holds(b, a) && bufs[b].data == flat[a]
      ensures Held() == old(Held()) + {a} && Pinned() == old(Pinned())
      ensures forall c: nat, x :: old(Holds(c, x)) ==> c != b && Holds(c, x)
    {
      hide Coherent, Linked, Permutation, HeldIn, PinnedIn;
      BreadAvailable(bufs, disk, flat, a);
      var sleeps;
      b, sleeps := Bget(a);
      HeldAdd(old(bufs), b, bufs[b]);
      PinnedSame(old(bufs), b, bufs[b]);
      label got:
      if !bufs[b].valid {
        Iderw(b);
        HeldSame(old@got(bufs), b, bufs[b]);
        PinnedSame(old@got(bufs), b, bufs[b]);
      }
      CoherentData(bufs, disk, flat, b);
    }

    /** A holder changes the data of its buffer. */
    method SetData(b: nat, d: block)
      requires Valid() && b < NBUF && bufs[b].busy && bufs[b].valid
      modifies this`bufs, this`flat
      ensures Valid()
      ensures bufs == old(bufs)[b := old(bufs)[b].(data := d)]
      ensures flat == old(flat)[bufs[b].at := d]
      ensures Held() == old(Held()) && Pinned() == old(Pinned())
    {
      hide Linked;
      LinkedByLinks(bufs, bufs[b := bufs[b].(data := d)], order);
      CoherentSetData(bufs, disk, flat, b, d);
      HeldSame(bufs, b, bufs[b].(data := d));
      PinnedSame(bufs, b, bufs[b].(data := d));
      flat := flat[bufs[b].at := d];
      bufs := bufs[b := bufs[b].(data := d)];
    }

    /** The buffer is marked dirty, which keeps it in the cache. */
    method Pin(b: nat)
      requires Valid() && b < NBUF && bufs[b].busy && bufs[b].valid
      modifies this`bufs
      ensures Valid()
      ensures bufs == old(bufs)[b := old(bufs)[b].(dirty := true)]
      ensures Held() == old(Held()) && Pinned() == old(Pinned()) + {bufs[b].at}
    {
      hide Linked;
      LinkedByLinks(bufs, bufs[b := bufs[b].(dirty := true)], order);
      CoherentPin(bufs, disk, flat, b);
      HeldSame(bufs, b, bufs[b].(dirty := true));
      PinnedAdd(bufs, b, bufs[b].(dirty := true));
      bufs := bufs[b := bufs[b].(dirty := true)];
    }

    /** bwrite: put the buffer on disk. */
    method Bwrite(b: nat)
      requires Valid() && b < NBUF && bufs[b].busy && bufs[b].valid
      modifies this`bufs, this`disk, this`trace
      ensures Valid()
      ensures bufs == old(bufs)[b := old(bufs)[b].(dirty := false)]
      ensures disk == old(disk)[bufs[b].at := flat[bufs[b].at]] && trace == old(trace) + [disk]
      ensures Held() == old(Held()) && Pinned() == old(Pinned()) - {bufs[b].at}
    {
      hide Coherent, Linked, Permutation, HeldIn, PinnedIn;
      Pin(b);
      label pinned:
      CoherentData(bufs, disk, flat, b);
      Iderw(b);
      HeldSame(old@pinned(bufs), b, bufs[b]);
      PinnedRemove(old@pinned(bufs), old@pinned(disk), flat, b);
    }

    /** brelse: the buffer becomes the most recently released one. */
    method Brelse(b: nat)
      requires Valid() && b < NBUF && bufs[b].busy && bufs[b].valid
      requires bufs[b].at in Pinned() || flat[bufs[b].at] == disk[bufs[b].at]
      modifies this`bufs, this`order, this`released, this`clock
      ensures Valid()
      ensures Held() == old(Held()) - {old(bufs)[b].at} && Pinned() == old(Pinned())
      ensures SameContents(old(bufs)[b := old(bufs)[b].(busy := false)], bufs)
      ensures b in old(order) && order == [b] + Without(old(order), Index(old(order), b))
      ensures clock == old(clock) + 1 && released == old(released)[b := clock]
    {
      hide Coherent, Linked, HeldIn, PinnedIn, Permutation, Dated, MoveToFront, SameContents, Without, Index;
      EveryBufferListed(order, b);
      ghost var i := Index(order, b);
      MoveToFrontReady(bufs, order, i);
      MoveToFrontLinked(bufs, order, i);
      MoveToFrontOrder(order, released, clock, i);
      ReleaseFlags(bufs, MoveToFront(bufs, b), [b] + Without(order, i), disk, flat, b);
      bufs := MoveToFront(bufs, b);
      bufs := bufs[b := bufs[b].(busy := false)];
      order := [b] + Without(order, i);
      clock := clock + 1;
      released := released[b := clock];
    }

    /** The idiom of filling a buffer, writing and releasing it. */
    method WriteOut(b: nat, ghost a: Addr, d: block)
      requires Valid() && Holds(b, a)
      modifies this
      ensures Valid()
      ensures disk == old(disk)[a := d] && flat == old(flat)[a := d] && trace == old(trace) + [disk]
      ensures Held() == old(Held()) - {a} && Pinned() == old(Pinned()) - {a}
      ensures forall c: nat, x :: c != b && old(Holds(c, x)) ==> Holds(c, x)
    {
      hide Coherent, Linked, HeldIn, PinnedIn, Permutation, Dated, Index, Without;
      SetData(b, d);
      Bwrite(b);
      Brelse(b);
    }
  }

  lemma EveryBufferListed(order: seq<nat>, b: nat)
    requires Permutation(order) && b < NBUF
    ensures b in order
  {
  }

  lemma ReleaseFlags(bufs: seq<Buf>, moved: seq<Buf>, order: seq<nat>, disk: Disk, flat: Disk, b: nat)
    requires |bufs| == |moved| == NBUF + 1 && Coherent(bufs, disk, flat) && b < NBUF && bufs[b].busy && bufs[b].valid
    requires SameContents(bufs, moved) && Linked(moved, order)
    requires bufs[b].at in PinnedIn(bufs) || flat[bufs[b].at] == disk[bufs[b].at]
    ensures var r := moved[b := moved[b].(busy := false)];
            && Linked(r, order)
            && Coherent(r, disk, flat)
            && SameContents(bufs[b := bufs[b].(busy := false)], r)
            && HeldIn(r) == HeldIn(bufs) - {bufs[b].at}
            && PinnedIn(r) == PinnedIn(bufs)
  {
    hide Coherent, Linked, HeldIn, PinnedIn;
    PinnedSameContents(bufs, moved);
    HeldRemove(bufs, moved, disk, flat, b);
    CoherentRelease(bufs, moved, disk, flat, b);
    LinkedByLinks(moved, moved[b := moved[b].(busy := false)], order);
    PinnedSame(moved, b, moved[b].(busy := false));
  }

  ghost function Index(order: seq<nat>, b: nat): (i: nat)
    requires b in order
    ensures i < |order| && order[i] == b
  {
    var i :| 0 <= i < |order| && order[i] == b;
    i
  }

  lemma PinnedSameContents(bufs: seq<Buf>, bufs': seq<Buf>)
    requires |bufs| == NBUF + 1 && SameContents(bufs, bufs')
    ensures PinnedIn(bufs') == PinnedIn(bufs)
  {
    assert forall c :: 0 <= c < NBUF ==> bufs'[c].dirty == bufs[c].dirty && bufs'[c].at == bufs[c].at;
  }

  lemma HeldRemove(bufs: seq<Buf>, bufs': seq<Buf>, disk: Disk, flat: Disk, b: nat)
    requires |bufs| == NBUF + 1 && Coherent(bufs, disk, flat) && b < NBUF && bufs[b].busy
    requires SameContents(bufs, bufs')
    ensures HeldIn(bufs'[b := bufs'[b].(busy := false)]) == HeldIn(bufs) - {bufs[b].at}
  {
    var r := bufs'[b := bufs'[b].(busy := false)];
    assert forall c :: 0 <= c < NBUF ==> r[c].at == bufs[c].at && r[c].busy == (bufs[c].busy && c != b);
    forall c | 0 <= c < NBUF && bufs[c].busy && c != b ensures bufs[c].at in HeldIn(r) && bufs[c].at != bufs[b].at {
      assert r[c].busy && r[c].at == bufs[c].at;
      assert bufs[c].Live() && bufs[b].Live();
    }
  }

  lemma CoherentRelease(bufs: seq<Buf>, bufs': seq<Buf>, disk: Disk, flat: Disk, b: nat)
    requires |bufs| == NBUF + 1 && Coherent(bufs, disk, flat) && b < NBUF && bufs[b].busy && bufs[b].valid
    requires SameContents(bufs, bufs')
    requires bufs[b].at in PinnedIn(bufs) || flat[bufs[b].at] == disk[bufs[b].at]
    ensures Coherent(bufs'[b := bufs'[b].(busy := false)], disk, flat)
  {
    var r := bufs'[b := bufs'[b].(busy := false)];
    assert forall c :: 0 <= c < NBUF ==>
           r[c] == bufs[c].(busy := bufs[c].busy && c != b, prev := r[c].prev, next := r[c].next);
    forall x | x in disk && flat[x] != disk[x] ensures Cached(r, x) {
      var c :| 0 <= c < NBUF && bufs[c].at == x && bufs[c].valid;
      assert r[c].at == x && r[c].valid;
    }
  }

  ghost function HeldIn(bufs: seq<Buf>): (s: set<Addr>) {
    set b | 0 <= b < NBUF < |bufs| && bufs[b].busy :: bufs[b].at
  }

  ghost function PinnedIn(bufs: seq<Buf>): (s: set<Addr>) {
    set b | 0 <= b < NBUF < |bufs| && bufs[b].dirty :: bufs[b].at
  }

  lemma HeldAdd(bufs: seq<Buf>, b: nat, x: Buf)
    requires |bufs| == NBUF + 1 && b < NBUF && !bufs[b].busy && x.busy
    ensures HeldIn(bufs[b := x]) == HeldIn(bufs) + {x.at}
  {
    var bufs' := bufs[b := x];
    assert bufs'[b].busy;
    forall c | 0 <= c < NBUF && bufs[c].busy ensures bufs[c].at in HeldIn(bufs') {
      assert bufs'[c].busy && bufs'[c].at == bufs[c].at;
    }
  }

  lemma HeldSame(bufs: seq<Buf>, b: nat, x: Buf)
    requires |bufs| == NBUF + 1 && b < NBUF && x.busy == bufs[b].busy && x.at == bufs[b].at
    ensures HeldIn(bufs[b := x]) == HeldIn(bufs)
  {
    var bufs' := bufs[b := x];
    assert forall c :: 0 <= c < NBUF ==> bufs'[c].busy == bufs[c].busy && bufs'[c].at == bufs[c].at;
  }

  lemma PinnedSame(bufs: seq<Buf>, b: nat, x: Buf)
    requires |bufs| == NBUF + 1 && b < NBUF && x.dirty == bufs[b].dirty && (x.dirty ==> x.at == bufs[b].at)
    ensures PinnedIn(bufs[b := x]) == PinnedIn(bufs)
  {
    var bufs' := bufs[b := x];
    assert forall c :: 0 <= c < NBUF ==>
           bufs'[c].dirty == bufs[c].dirty
           && (bufs[c].dirty ==> bufs'[c].at == bufs[c].at);
  }

  lemma PinnedAdd(bufs: seq<Buf>, b: nat, x: Buf)
    requires |bufs| == NBUF + 1 && b < NBUF && x.dirty && x.at == bufs[b].at
    ensures PinnedIn(bufs[b := x]) == PinnedIn(bufs) + {x.at}
  {
    var bufs' := bufs[b := x];
    assert bufs'[b].dirty;
    forall c | 0 <= c < NBUF && bufs[c].dirty ensures bufs[c].at in PinnedIn(bufs') {
      assert bufs'[c].dirty && bufs'[c].at == bufs[c].at;
    }
  }

  lemma PinnedRemove(bufs: seq<Buf>, disk: Disk, flat: Disk, b: nat)
    requires |bufs| == NBUF + 1 && Coherent(bufs, disk, flat) && b < NBUF && bufs[b].dirty
    ensures PinnedIn(bufs[b := bufs[b].(dirty := false)]) == PinnedIn(bufs) - {bufs[b].at}
  {
    var bufs' := bufs[b := bufs[b].(dirty := false)];
    forall c | 0 <= c < NBUF && bufs[c].dirty && c != b
        ensures bufs[c].at in PinnedIn(bufs') && bufs[c].at != bufs[b].at {
      assert bufs'[c].dirty && bufs'[c].at == bufs[c].at;
      assert bufs[c].Live() && bufs[b].Live();
    }
  }

  lemma BreadAvailable(bufs: seq<Buf>, disk: Disk, flat: Disk, a: Addr)
    requires |bufs| == NBUF + 1 && Coherent(bufs, disk, flat)
    requires a !in HeldIn(bufs) && |HeldIn(bufs) + PinnedIn(bufs) + {a}| <= NBUF
    ensures forall b :: 0 <= b < NBUF && bufs[b].at == a ==> !bufs[b].busy
    ensures (forall b :: 0 <= b < NBUF ==> bufs[b].at != a) ==> exists b :: 0 <= b < NBUF && bufs[b].Idle()
  {
    if forall b :: 0 <= b < NBUF ==> bufs[b].at != a {
      assert a !in HeldIn(bufs) + PinnedIn(bufs);
      RoomMeansAvailable(bufs, disk, flat);
    }
  }

  lemma OneBuffer(bufs: seq<Buf>, disk: Disk, flat: Disk, b: nat)
    requires |bufs| == NBUF + 1 && Coherent(bufs, disk, flat) && b < NBUF && bufs[b].Live()
    ensures forall c :: 0 <= c < NBUF && bufs[c].at == bufs[b].at ==> c == b
  {
  }

  lemma CoherentData(bufs: seq<Buf>, disk: Disk, flat: Disk, b: nat)
    requires |bufs| == NBUF + 1 && Coherent(bufs, disk, flat) && b < NBUF && bufs[b].valid
    ensures bufs[b].at in disk && bufs[b].at in flat && bufs[b].data == flat[bufs[b].at]
  {
  }

  lemma CoherentSetData(bufs: seq<Buf>, disk: Disk, flat: Disk, b: nat, d: block)
    requires |bufs| == NBUF + 1 && Coherent(bufs, disk, flat) && b < NBUF && bufs[b].busy && bufs[b].valid
    ensures Coherent(bufs[b := bufs[b].(data := d)], disk, flat[bufs[b].at := d])
  {
    var bufs', flat' := bufs[b := bufs[b].(data := d)], flat[bufs[b].at := d];
    assert bufs'[b].at == bufs[b].at && bufs'[b].valid;
    forall x | x in disk && flat'[x] != disk[x] ensures Cached(bufs', x) {
      if x != bufs[b].at {
        var c :| 0 <= c < NBUF && bufs[c].at == x && bufs[c].valid;
        assert bufs'[c].at == x && bufs'[c].valid;
      }
    }
  }

  lemma CoherentPin(bufs: seq<Buf>, disk: Disk, flat: Disk, b: nat)
    requires |bufs| == NBUF + 1 && Coherent(bufs, disk, flat) && b < NBUF && bufs[b].busy && bufs[b].valid
    ensures Coherent(bufs[b := bufs[b].(dirty := true)], disk, flat)
  {
    var bufs' := bufs[b := bufs[b].(dirty := true)];
    forall x | x in disk && flat[x] != disk[x] ensures Cached(bufs', x) {
      var c :| 0 <= c < NBUF && bufs[c].at == x && bufs[c].valid;
      assert bufs'[c].at == x && bufs'[c].valid;
    }
  }

  /** What the flags promise about a sector: unless its buffer is held or pinned, clients see the disk. */
  lemma CleanSector(bufs: seq<Buf>, disk: Disk, flat: Disk, a: Addr)
    requires |bufs| == NBUF + 1 && Coherent(bufs, disk, flat)
    requires a in disk && a !in HeldIn(bufs) && a !in PinnedIn(bufs)
    ensures flat[a] == disk[a]
  {
    forall b | 0 <= b < NBUF && bufs[b].at == a && bufs[b].valid ensures flat[a] == disk[a] {
      assert bufs[b].Idle();
    }
  }

  lemma SubsetSize<T>(s: set<T>, t: set<T>)
    requires s <= t
    ensures |s| <= |t|
  {
    assert t == s + (t - s);
  }

  lemma DistinctSize<T>(xs: seq<T>, s: set<T>)
    requires forall i, j :: 0 <= i < j < |xs| ==> xs[i] != xs[j]
    requires forall i :: 0 <= i < |xs| ==> xs[i] in s
    ensures |xs| <= |s|
  {
    if xs != [] {
      var last := xs[|xs| - 1];
      DistinctSize(xs[..|xs| - 1], s - {last});
    }
  }

  /** If no buffer can be recycled, NBUF distinct sectors are held or pinned. */
  lemma RoomMeansAvailable(bufs: seq<Buf>, disk: Disk, flat: Disk)
    requires |bufs| == NBUF + 1 && Coherent(bufs, disk, flat)
    requires |HeldIn(bufs) + PinnedIn(bufs)| < NBUF
    ensures exists b :: 0 <= b < NBUF && bufs[b].Idle()
  {
    if forall b :: 0 <= b < NBUF ==> !bufs[b].Idle() {
      DistinctSize(seq(NBUF, b requires 0 <= b < NBUF => bufs[b].at), HeldIn(bufs) + PinnedIn(bufs));
    }
  }

  lemma NothingCached(bufs: seq<Buf>, disk: Disk)
    requires |bufs| == NBUF + 1
    requires forall b :: 0 <= b < NBUF ==> !bufs[b].Live() && !bufs[b].busy && !bufs[b].dirty && !bufs[b].valid
    ensures Coherent(bufs, disk, disk)
  {
  }

  lemma CoherentHit(bufs: seq<Buf>, disk: Disk, flat: Disk, b: nat)
    requires |bufs| == NBUF + 1 && Coherent(bufs, disk, flat) && b < NBUF && bufs[b].Live()
    ensures Coherent(bufs[b := bufs[b].(busy := true)], disk, flat)
    ensures bufs[b].valid || bufs[b].busy
  {
    var bufs' := bufs[b := bufs[b].(busy := true)];
    forall a | a in disk && flat[a] != disk[a] ensures Cached(bufs', a) {
      var c :| 0 <= c < NBUF && bufs[c].at == a && bufs[c].valid;
      assert bufs'[c].at == a && bufs'[c].valid;
    }
  }

  lemma CoherentSync(bufs: seq<Buf>, disk: Disk, flat: Disk, b: nat)
    requires |bufs| == NBUF + 1 && Coherent(bufs, disk, flat) && b < NBUF && bufs[b].busy
    requires bufs[b].dirty || !bufs[b].valid
    ensures bufs[b].at in disk
    ensures var d: block := if bufs[b].dirty then bufs[b].data else disk[bufs[b].at];
            Coherent(bufs[b := bufs[b].(valid := true, dirty := false, data := d)], disk[bufs[b].at := d], flat)
  {
    var a := bufs[b].at;
    var d: block := if bufs[b].dirty then bufs[b].data else disk[a];
    var bufs' := bufs[b := bufs[b].(valid := true, dirty := false, data := d)];
    assert !bufs[b].dirty ==> !Cached(bufs, a);
    assert flat[a] == d;
    forall x | x in disk && flat[x] != disk[x] ensures Cached(bufs', x) {
      var c :| 0 <= c < NBUF && bufs[c].at == x && bufs[c].valid;
      assert bufs'[c].at == x && bufs'[c].valid;
    }
  }

  lemma CoherentRecycle(bufs: seq<Buf>, disk: Disk, flat: Disk, b: nat, a: Addr)
    requires |bufs| == NBUF + 1 && Coherent(bufs, disk, flat) && b < NBUF && bufs[b].Idle()
    requires a in disk && a.dev != NODEV && forall c :: 0 <= c < NBUF ==> bufs[c].at != a
    ensures Coherent(bufs[b := bufs[b].(at := a, busy := true, valid := false, dirty := false)], disk, flat)
  {
    var bufs' := bufs[b := bufs[b].(at := a, busy := true, valid := false, dirty := false)];
    forall x | x in disk && flat[x] != disk[x] ensures Cached(bufs', x) {
      var c :| 0 <= c < NBUF && bufs[c].at == x && bufs[c].valid;
      assert bufs'[c].at == x && bufs'[c].valid;
    }
  }
}
