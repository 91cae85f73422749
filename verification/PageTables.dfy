/** Two-level page tables over a pool of page frames, and who owns each frame (vm.c, kalloc.c). */
module PageTables {
  const PGSIZE: nat := 4096
  const NENTRIES: nat := 1024

  /** Directory entries below KERNBASE. */
  const NUSER: nat := 512

  const PTE_P: nat := 1
  const PTE_W: nat := 2
  const PTE_U: nat := 4

  datatype Pte = Pte(frame: int, flags: nat)

  const NOPTE: Pte := Pte(0, 0)

  predicate Present(p: Pte) {
    p.flags % 2 == 1
  }

  predicate User(p: Pte) {
    p.flags / 4 % 2 == 1
  }

  /** What a frame is used for: bytes of a process, a directory or table, or neither. */
  datatype Frame = Data(bytes: seq<int>) | Table(ptes: seq<Pte>) | Junk

  type Mem = map<int, Frame>

  predicate IsTable(m: Mem, f: int) {
    f in m && m[f].Table? && |m[f].ptes| == NENTRIES
  }

  predicate IsData(m: Mem, f: int) {
    f in m && m[f].Data? && |m[f].bytes| == PGSIZE
  }

  function Entry(m: Mem, f: int, i: int): (p: Pte) {
    if IsTable(m, f) && 0 <= i < NENTRIES then m[f].ptes[i] else NOPTE
  }

  /** The entry for page `j` of directory slot `i`: the flat map that the two levels implement. */
  function Look(m: Mem, d: int, i: int, j: int): (p: Pte) {
    if Present(Entry(m, d, i)) then Entry(m, Entry(m, d, i).frame, j) else NOPTE
  }

  /** The bytes of a mapped page. */
  function Page(m: Mem, d: int, i: int, j: int): (b: seq<int>)
    ensures |b| == PGSIZE || b == []
  {
    var p := Look(m, d, i, j);
    if Present(p) && IsData(m, p.frame) then m[p.frame].bytes else []
  }

  /** Who a frame belongs to. */
  datatype Owner =
    | Free                          // the free list
    | Held                          // just allocated, or lost
    | Dir                           // a page directory
    | Tab(d: int, i: int)           // the table of slot i of directory d
    | Leaf(d: int, i: int, j: int)  // the user page that entry (i, j) of directory d maps

  /** Everything the allocator and the page tables hold together. */
  datatype Pool = Pool(mem: Mem, free: seq<int>, dirs: set<int>, owner: map<int, Owner>)

  ghost predicate FreeOk(y: Pool) {
    && (forall k :: 0 <= k < |y.free| ==> y.free[k] in y.owner && y.owner[y.free[k]] == Free)
    && (forall k, l :: 0 <= k < l < |y.free| ==> y.free[k] != y.free[l])
    && (forall f :: f in y.owner && y.owner[f] == Free ==> f in y.free)
  }

  ghost predicate DirOk(y: Pool, d: int) {
    d in y.owner && y.owner[d] == Dir && IsTable(y.mem, d)
  }

  ghost predicate TabOk(y: Pool, d: int, i: int) {
    var t := Entry(y.mem, d, i).frame;
    t in y.owner && y.owner[t] == Tab(d, i) && IsTable(y.mem, t)
  }

  /** A user page is a frame of its own; kernel pages belong to nobody and are not for users. */
  ghost predicate LeafOk(y: Pool, d: int, i: int, j: int) {
    var p := Look(y.mem, d, i, j);
    if i < NUSER then p.frame in y.owner && y.owner[p.frame] == Leaf(d, i, j) && IsData(y.mem, p.frame)
    else !User(p)
  }

  /** An owner really refers to its frame. */
  ghost predicate OwnerOk(y: Pool, f: int)
    requires f in y.owner
  {
    match y.owner[f]
    case Free => true
    case Held => true
    case Dir => f in y.dirs
    case Tab(d, i) =>
      d in y.dirs && 0 <= i < NENTRIES && Present(Entry(y.mem, d, i)) && Entry(y.mem, d, i).frame == f
    case Leaf(d, i, j) =>
      && d in y.dirs && 0 <= i < NUSER && 0 <= j < NENTRIES
      && Present(Look(y.mem, d, i, j)) && Look(y.mem, d, i, j).frame == f
  }

  ghost predicate DirsOk(y: Pool) {
    && (forall d :: d in y.dirs ==> DirOk(y, d))
    && (forall d, i :: d in y.dirs && Present(Entry(y.mem, d, i)) ==> TabOk(y, d, i))
    && (forall d, i, j :: d in y.dirs && Present(Look(y.mem, d, i, j)) ==> LeafOk(y, d, i, j))
  }

  ghost predicate OwnersOk(y: Pool) {
    y.owner.Keys == y.mem.Keys && forall f :: f in y.owner ==> OwnerOk(y, f)
  }

  ghost predicate Good(y: Pool) {
    FreeOk(y) && DirsOk(y) && OwnersOk(y)
  }

  /** Directory `e` maps what it did, to the same bytes. */
  ghost predicate SameSpace(m: Mem, m': Mem, e: int) {
    forall i, j :: Look(m', e, i, j) == Look(m, e, i, j) && (i < NUSER ==> Page(m', e, i, j) == Page(m, e, i, j))
  }

  ghost predicate OthersSame(y: Pool, y': Pool, d: int) {
    forall e :: e in y.dirs && e != d ==> e in y'.dirs && SameSpace(y.mem, y'.mem, e)
  }

  lemma SameTrans(a: Mem, b: Mem, c: Mem, e: int)
    requires SameSpace(a, b, e) && SameSpace(b, c, e)
    ensures SameSpace(a, c, e)
  {
    hide Look, Page;
  }

  lemma SameAllTrans(x: Pool, y: Pool, m: Mem)
    requires SameAll(x, y.mem) && SameAll(y, m) && x.dirs <= y.dirs
    ensures SameAll(x, m)
  {
    hide SameSpace;
    forall e | e in x.dirs ensures SameSpace(x.mem, m, e) {
      SameTrans(x.mem, y.mem, m, e);
    }
  }

  lemma OthersTrans(x: Pool, y: Pool, z: Pool, d: int)
    requires OthersSame(x, y, d) && OthersSame(y, z, d)
    ensures OthersSame(x, z, d)
  {
    hide SameSpace;
    forall e | e in x.dirs && e != d ensures SameSpace(x.mem, z.mem, e) {
      SameTrans(x.mem, y.mem, z.mem, e);
    }
  }

  // ---- frames come and go -----------------------------------------------------------------------------------

  /** Ownership matters only for frames that directories use. */
  lemma OwnerChange(y: Pool, owner: map<int, Owner>, free: seq<int>)
    requires Good(y) && owner.Keys == y.owner.Keys && FreeOk(y.(owner := owner, free := free))
    requires forall f :: f in owner && owner[f] != y.owner[f] ==>
               (y.owner[f].Free? || y.owner[f].Held?) && (owner[f].Free? || owner[f].Held?)
    ensures Good(y.(owner := owner, free := free))
  {
    hide FreeOk;
    var y' := y.(owner := owner, free := free);
    forall d, i | d in y.dirs && Present(Entry(y.mem, d, i)) ensures TabOk(y', d, i) {
      assert TabOk(y, d, i);
    }
    forall d, i, j | d in y.dirs && Present(Look(y.mem, d, i, j)) ensures LeafOk(y', d, i, j) {
      assert LeafOk(y, d, i, j);
    }
    forall d | d in y.dirs ensures DirOk(y', d) {
      assert DirOk(y, d);
    }
    forall f | f in owner ensures OwnerOk(y', f) {
      assert OwnerOk(y, f);
    }
  }

  /** kalloc takes the head of the free list. */
  lemma TakeGood(y: Pool)
    requires Good(y) && y.free != []
    ensures var f := y.free[0];
            f in y.owner && y.owner[f] == Free && Good(y.(free := y.free[1..], owner := y.owner[f := Held]))
  {
    var f := y.free[0];
    var owner, free := y.owner[f := Held], y.free[1..];
    assert FreeOk(y.(owner := owner, free := free)) by {
      forall g | g in owner && owner[g] == Free ensures g in free {
        assert g in y.free;
      }
    }
    OwnerChange(y, owner, free);
  }

  /** kfree puts a frame at the head. */
  lemma GiveGood(y: Pool, f: int)
    requires Good(y) && f in y.owner && y.owner[f] == Held
    ensures Good(y.(free := [f] + y.free, owner := y.owner[f := Free]))
  {
    var owner, free := y.owner[f := Free], [f] + y.free;
    assert FreeOk(y.(owner := owner, free := free)) by {
      forall g | g in owner && owner[g] == Free ensures g in free {
        assert g == f || g in y.free;
      }
    }
    OwnerChange(y, owner, free);
  }

  /** What no directory uses can be overwritten. */
  lemma ScratchWrite(y: Pool, f: int, c: Frame)
    requires Good(y) && f in y.owner && (y.owner[f] == Held || y.owner[f] == Free)
    ensures Good(y.(mem := y.mem[f := c])) && OthersSame(y, y.(mem := y.mem[f := c]), -1) && SameAll(y, y.mem[f := c])
  {
    var y' := y.(mem := y.mem[f := c]);
    ScratchLooks(y, f, c);
    hide Look;
    forall d, i | d in y.dirs && Present(Entry(y'.mem, d, i)) ensures TabOk(y', d, i) {
      assert TabOk(y, d, i);
    }
    forall d, i, j | d in y.dirs && Present(Look(y'.mem, d, i, j)) ensures LeafOk(y', d, i, j) {
      assert LeafOk(y, d, i, j);
    }
    forall d | d in y.dirs ensures DirOk(y', d) {
      assert DirOk(y, d);
    }
    forall g | g in y'.owner ensures OwnerOk(y', g) {
      assert OwnerOk(y, g);
    }
  }

  ghost predicate SameAll(y: Pool, m: Mem) {
    forall e :: e in y.dirs ==> SameSpace(y.mem, m, e)
  }

  lemma ScratchLooks(y: Pool, f: int, c: Frame)
    requires Good(y) && f in y.owner && (y.owner[f] == Held || y.owner[f] == Free)
    ensures var m := y.mem[f := c];
            && (forall d, i :: d in y.dirs ==> Entry(m, d, i) == Entry(y.mem, d, i))
            && (forall d, i, j :: d in y.dirs ==> Look(m, d, i, j) == Look(y.mem, d, i, j))
            && SameAll(y, m)
  {
    var m := y.mem[f := c];
    forall d, i | d in y.dirs ensures Entry(m, d, i) == Entry(y.mem, d, i) {
      assert DirOk(y, d);
    }
    forall d, i, j | d in y.dirs ensures Look(m, d, i, j) == Look(y.mem, d, i, j) {
      assert Present(Entry(y.mem, d, i)) ==> TabOk(y, d, i);
    }
    forall d, i, j | d in y.dirs && i < NUSER ensures Page(m, d, i, j) == Page(y.mem, d, i, j) {
      assert Present(Look(y.mem, d, i, j)) ==> LeafOk(y, d, i, j);
    }
  }

  // ---- entries come and go ----------------------------------------------------------------------------------

  function SetEntry(m: Mem, t: int, k: int, p: Pte): (r: Mem)
    requires IsTable(m, t) && 0 <= k < NENTRIES
    ensures forall f, i :: Entry(r, f, i) == if f == t && i == k then p else Entry(m, f, i)
    ensures r.Keys == m.Keys && (forall f :: IsTable(r, f) <==> IsTable(m, f))
            && (forall f :: IsData(r, f) <==> IsData(m, f))
    ensures forall f :: f in m && f != t ==> r[f] == m[f]
  {
    m[t := Table(m[t].ptes[k := p])]
  }

  /** A table entry is seen through one directory slot only. */
  lemma SetLooks(y: Pool, d: int, i: int, j: int, p: Pte)
    requires Good(y) && d in y.dirs && Present(Entry(y.mem, d, i)) && 0 <= j < NENTRIES
    ensures TabOk(y, d, i)
    ensures var m := SetEntry(y.mem, Entry(y.mem, d, i).frame, j, p);
            && (forall e, a :: e in y.dirs ==> Entry(m, e, a) == Entry(y.mem, e, a))
            && (forall e, a, b :: e in y.dirs ==>
                  Look(m, e, a, b) == if e == d && a == i && b == j then p else Look(y.mem, e, a, b))
  {
    assert TabOk(y, d, i);
    var t := Entry(y.mem, d, i).frame;
    var m := SetEntry(y.mem, t, j, p);
    hide SetEntry;
    forall e, a | e in y.dirs ensures Entry(m, e, a) == Entry(y.mem, e, a) {
      assert DirOk(y, e);
    }
    forall e, a, b | e in y.dirs
      ensures Look(m, e, a, b) == if e == d && a == i && b == j then p else Look(y.mem, e, a, b)
    {
      assert Present(Entry(y.mem, e, a)) ==> TabOk(y, e, a);
    }
  }

  /** Memory `m` is that of `y` with entry (i, j) of directory `d` set to `p`, as all directories see it. */
  ghost predicate OneSet(y: Pool, m: Mem, d: int, i: int, j: int, p: Pte) {
    && m.Keys == y.mem.Keys
    && (forall e, a :: e in y.dirs ==> Entry(m, e, a) == Entry(y.mem, e, a))
    && (forall e, a, b :: e in y.dirs ==>
          Look(m, e, a, b) == if e == d && a == i && b == j then p else Look(y.mem, e, a, b))
    && (forall f :: IsTable(m, f) <==> IsTable(y.mem, f))
    && (forall f :: IsData(m, f) <==> IsData(y.mem, f)) && (forall f :: IsData(y.mem, f) ==> m[f] == y.mem[f])
  }

  lemma SetOne(y: Pool, d: int, i: int, j: int, p: Pte)
    requires Good(y) && d in y.dirs && Present(Entry(y.mem, d, i)) && 0 <= j < NENTRIES
    ensures TabOk(y, d, i) && OneSet(y, SetEntry(y.mem, Entry(y.mem, d, i).frame, j, p), d, i, j, p)
  {
    SetLooks(y, d, i, j, p);
    hide SetEntry, Look, FreeOk, OwnersOk;
  }

  /** Pages other than the one set keep their bytes. */
  lemma OneSetPages(y: Pool, m: Mem, d: int, i: int, j: int, p: Pte)
    requires DirsOk(y) && OneSet(y, m, d, i, j, p)
    ensures forall e, a, b :: e in y.dirs && a < NUSER && (e != d || a != i || b != j) ==>
              Page(m, e, a, b) == Page(y.mem, e, a, b)
  {
    hide Look, Entry;
    forall e, a, b | e in y.dirs && a < NUSER && (e != d || a != i || b != j)
      ensures Page(m, e, a, b) == Page(y.mem, e, a, b)
    {
      assert Present(Look(y.mem, e, a, b)) ==> LeafOk(y, e, a, b);
    }
  }

  /** Directories and tables stay what they are if no owner of theirs changes. */
  lemma OneSetTabs(y: Pool, y': Pool, d: int, i: int, j: int, p: Pte)
    requires DirsOk(y) && OneSet(y, y'.mem, d, i, j, p) && y'.dirs == y.dirs
    requires forall f :: f in y.owner && (y.owner[f].Dir? || y.owner[f].Tab?) ==>
               f in y'.owner && y'.owner[f] == y.owner[f]
    ensures forall e :: e in y.dirs ==> DirOk(y', e)
    ensures forall e, a :: e in y.dirs && Present(Entry(y'.mem, e, a)) ==> TabOk(y', e, a)
  {
    hide Look, Entry;
    forall e | e in y.dirs ensures DirOk(y', e) {
      assert DirOk(y, e);
    }
    forall e, a | e in y.dirs && Present(Entry(y'.mem, e, a)) ensures TabOk(y', e, a) {
      assert TabOk(y, e, a);
    }
  }

  /** mappages: a new leaf. */
  lemma LinkLeaf(y: Pool, d: int, i: int, j: int, p: Pte)
    requires Good(y) && d in y.dirs && Present(Entry(y.mem, d, i)) && 0 <= i < NENTRIES && 0 <= j < NENTRIES
    requires !Present(Look(y.mem, d, i, j)) && Present(p)
    requires if i < NUSER then p.frame in y.owner && y.owner[p.frame] == Held && IsData(y.mem, p.frame) else !User(p)
    ensures TabOk(y, d, i)
    ensures var m := SetEntry(y.mem, Entry(y.mem, d, i).frame, j, p);
            var y' := y.(mem := m, owner := if i < NUSER then y.owner[p.frame := Leaf(d, i, j)] else y.owner);
            && Good(y') && OthersSame(y, y', d)
            && (forall a, b :: Look(m, d, a, b) == if a == i && b == j then p else Look(y.mem, d, a, b))
            && (forall a, b :: a < NUSER && (a != i || b != j) ==> Page(m, d, a, b) == Page(y.mem, d, a, b))
            && (i < NUSER ==> Page(m, d, i, j) == y.mem[p.frame].bytes)
            && (forall a :: Entry(m, d, a) == Entry(y.mem, d, a))
  {
    SetOne(y, d, i, j, p);
    var m := SetEntry(y.mem, Entry(y.mem, d, i).frame, j, p);
    var y' := y.(mem := m, owner := if i < NUSER then y.owner[p.frame := Leaf(d, i, j)] else y.owner);
    hide SetEntry, Look, DirsOk, OwnersOk, FreeOk;
    OneSetPages(y, m, d, i, j, p);
    LinkLeafDirs(y, y', d, i, j, p);
    LinkLeafOwners(y, y', d, i, j, p);
  }

  lemma LinkLeafDirs(y: Pool, y': Pool, d: int, i: int, j: int, p: Pte)
    requires DirsOk(y) && OneSet(y, y'.mem, d, i, j, p) && y'.dirs == y.dirs && d in y.dirs
    requires y'.owner == if i < NUSER then y.owner[p.frame := Leaf(d, i, j)] else y.owner
    requires if i < NUSER then p.frame in y.owner && y.owner[p.frame] == Held && IsData(y.mem, p.frame) else !User(p)
    ensures DirsOk(y')
  {
    hide Look, Entry;
    OneSetTabs(y, y', d, i, j, p);
    forall e, a, b | e in y.dirs && Present(Look(y'.mem, e, a, b)) ensures LeafOk(y', e, a, b) {
      assert Present(Look(y.mem, e, a, b)) ==> LeafOk(y, e, a, b);
    }
  }

  lemma LinkLeafOwners(y: Pool, y': Pool, d: int, i: int, j: int, p: Pte)
    requires OwnersOk(y) && FreeOk(y) && OneSet(y, y'.mem, d, i, j, p)
    requires y'.dirs == y.dirs && y'.free == y.free && d in y.dirs
    requires !Present(Look(y.mem, d, i, j)) && Present(p) && 0 <= i < NENTRIES && 0 <= j < NENTRIES
    requires y'.owner == if i < NUSER then y.owner[p.frame := Leaf(d, i, j)] else y.owner
    requires i < NUSER ==> p.frame in y.owner && y.owner[p.frame] == Held
    ensures OwnersOk(y') && FreeOk(y')
  {
    hide Look, Entry;
    forall f | f in y'.owner ensures OwnerOk(y', f) {
      assert OwnerOk(y, f);
    }
  }

  /** deallocuvm: a user leaf goes, and its frame is free to be given back. */
  lemma DropLeaf(y: Pool, d: int, i: int, j: int)
    requires Good(y) && d in y.dirs && 0 <= i < NUSER && 0 <= j < NENTRIES && Present(Look(y.mem, d, i, j))
    ensures TabOk(y, d, i) && LeafOk(y, d, i, j)
    ensures var m := SetEntry(y.mem, Entry(y.mem, d, i).frame, j, NOPTE);
            var y' := y.(mem := m, owner := y.owner[Look(y.mem, d, i, j).frame := Held]);
            && Good(y') && OthersSame(y, y', d)
            && (forall a, b :: Look(m, d, a, b) == if a == i && b == j then NOPTE else Look(y.mem, d, a, b))
            && (forall a, b :: a < NUSER && (a != i || b != j) ==> Page(m, d, a, b) == Page(y.mem, d, a, b))
            && (forall a :: Entry(m, d, a) == Entry(y.mem, d, a))
  {
    assert Present(Entry(y.mem, d, i));
    assert LeafOk(y, d, i, j);
    SetOne(y, d, i, j, NOPTE);
    var m := SetEntry(y.mem, Entry(y.mem, d, i).frame, j, NOPTE);
    var y' := y.(mem := m, owner := y.owner[Look(y.mem, d, i, j).frame := Held]);
    hide SetEntry, Look, DirsOk, OwnersOk, FreeOk;
    OneSetPages(y, m, d, i, j, NOPTE);
    DropLeafDirs(y, y', d, i, j);
    DropLeafOwners(y, y', d, i, j);
  }

  lemma DropLeafDirs(y: Pool, y': Pool, d: int, i: int, j: int)
    requires DirsOk(y) && OneSet(y, y'.mem, d, i, j, NOPTE) && y'.dirs == y.dirs && d in y.dirs
    requires LeafOk(y, d, i, j) && i < NUSER && y'.owner == y.owner[Look(y.mem, d, i, j).frame := Held]
    ensures DirsOk(y')
  {
    hide Look, Entry;
    OneSetTabs(y, y', d, i, j, NOPTE);
    forall e, a, b | e in y.dirs && Present(Look(y'.mem, e, a, b)) ensures LeafOk(y', e, a, b) {
      assert Present(Look(y.mem, e, a, b)) ==> LeafOk(y, e, a, b);
    }
  }

  lemma DropLeafOwners(y: Pool, y': Pool, d: int, i: int, j: int)
    requires OwnersOk(y) && FreeOk(y) && OneSet(y, y'.mem, d, i, j, NOPTE)
    requires y'.dirs == y.dirs && y'.free == y.free && d in y.dirs
    requires LeafOk(y, d, i, j) && i < NUSER && y'.owner == y.owner[Look(y.mem, d, i, j).frame := Held]
    ensures OwnersOk(y') && FreeOk(y')
  {
    hide Look, Entry;
    forall f | f in y'.owner ensures OwnerOk(y', f) {
      assert OwnerOk(y, f);
    }
  }

  function ZeroTable(): (c: Frame) {
    Table(seq(NENTRIES, _ => NOPTE))
  }

  lemma ZeroEntries(m: Mem, t: int)
    ensures var m' := m[t := ZeroTable()]; IsTable(m', t) && forall j :: Entry(m', t, j) == NOPTE
  {
  }

  /** walkpgdir: an empty table changes nothing that is mapped. */
  lemma LinkTab(y: Pool, d: int, i: int, t: int, flags: nat)
    requires Good(y) && d in y.dirs && 0 <= i < NENTRIES && !Present(Entry(y.mem, d, i)) && flags % 2 == 1
    requires t in y.owner && y.owner[t] == Held && IsTable(y.mem, t) && forall j :: Entry(y.mem, t, j) == NOPTE
    ensures DirOk(y, d)
    ensures var m := SetEntry(y.mem, d, i, Pte(t, flags));
            var y' := y.(mem := m, owner := y.owner[t := Tab(d, i)]);
            && Good(y') && SameAll(y, m)
            && (forall a :: Entry(m, d, a) == if a == i then Pte(t, flags) else Entry(y.mem, d, a))
  {
    assert DirOk(y, d);
    var m := SetEntry(y.mem, d, i, Pte(t, flags));
    var y' := y.(mem := m, owner := y.owner[t := Tab(d, i)]);
    hide SetEntry;
    forall e, a, b | e in y.dirs ensures Look(m, e, a, b) == Look(y.mem, e, a, b) {
      assert DirOk(y, e);
      assert Present(Entry(y.mem, e, a)) ==> TabOk(y, e, a);
    }
    forall e | e in y.dirs ensures DirOk(y', e) {
      assert DirOk(y, e);
    }
    forall e, a | e in y.dirs && Present(Entry(m, e, a)) ensures TabOk(y', e, a) {
      assert Present(Entry(y.mem, e, a)) ==> TabOk(y, e, a);
    }
    hide Look;
    forall e, a, b | e in y.dirs && Present(Look(m, e, a, b)) ensures LeafOk(y', e, a, b) {
      assert LeafOk(y, e, a, b);
    }
    forall f | f in y'.owner ensures OwnerOk(y', f) {
      assert OwnerOk(y, f);
    }
    assert FreeOk(y');
    forall e, a, b | e in y.dirs && a < NUSER ensures Page(m, e, a, b) == Page(y.mem, e, a, b) {
      assert Present(Look(y.mem, e, a, b)) ==> LeafOk(y, e, a, b);
    }
  }

  /** A fresh directory maps nothing. */
  lemma NewDir(y: Pool, d: int)
    requires Good(y) && d in y.owner && y.owner[d] == Held && IsTable(y.mem, d)
             && forall i :: Entry(y.mem, d, i) == NOPTE
    ensures d !in y.dirs && Good(y.(dirs := y.dirs + {d}, owner := y.owner[d := Dir]))
    ensures forall i, j :: Look(y.mem, d, i, j) == NOPTE
  {
    var y' := y.(dirs := y.dirs + {d}, owner := y.owner[d := Dir]);
    assert d in y.dirs ==> DirOk(y, d);
    forall e | e in y'.dirs ensures DirOk(y', e) {
      assert e != d ==> DirOk(y, e);
    }
    forall e, a | e in y'.dirs && Present(Entry(y.mem, e, a)) ensures TabOk(y', e, a) {
      assert TabOk(y, e, a);
    }
    forall e, a, b | e in y'.dirs && Present(Look(y.mem, e, a, b)) ensures LeafOk(y', e, a, b) {
      assert LeafOk(y, e, a, b);
    }
    forall f | f in y'.owner ensures OwnerOk(y', f) {
      assert OwnerOk(y, f);
    }
    assert FreeOk(y');
  }

  /** The frames of directory `d` itself: the directory and its tables. */
  predicate OfDir(o: Owner, f: int, d: int) {
    f == d || (o.Tab? && o.d == d)
  }

  ghost function Retired(y: Pool, d: int): (r: Pool) {
    y.(dirs := y.dirs - {d}, owner := map f | f in y.owner :: if OfDir(y.owner[f], f, d) then Held else y.owner[f])
  }

  /** A directory without user pages can be given up; its frames are then to be given back. */
  lemma RetireGood(y: Pool, d: int)
    requires Good(y) && d in y.dirs && forall i, j :: i < NUSER ==> !Present(Look(y.mem, d, i, j))
    ensures Good(Retired(y, d))
  {
    var y' := Retired(y, d);
    assert DirOk(y, d);
    forall e | e in y'.dirs ensures DirOk(y', e) {
      assert DirOk(y, e);
    }
    forall e, a | e in y'.dirs && Present(Entry(y.mem, e, a)) ensures TabOk(y', e, a) {
      assert TabOk(y, e, a);
    }
    forall e, a, b | e in y'.dirs && Present(Look(y.mem, e, a, b)) ensures LeafOk(y', e, a, b) {
      assert LeafOk(y, e, a, b);
    }
    forall f | f in y'.owner ensures OwnerOk(y', f) {
      assert OwnerOk(y, f);
    }
    assert FreeOk(y');
  }

  /** Writing to a user page changes that page of that process and nothing else. */
  lemma WriteLeaf(y: Pool, d: int, i: int, j: int, bytes: seq<int>)
    requires Good(y) && d in y.dirs && i < NUSER && Present(Look(y.mem, d, i, j)) && |bytes| == PGSIZE
    ensures LeafOk(y, d, i, j)
    ensures var m := y.mem[Look(y.mem, d, i, j).frame := Data(bytes)];
            && Good(y.(mem := m)) && OthersSame(y, y.(mem := m), d)
            && (forall a, b :: Look(m, d, a, b) == Look(y.mem, d, a, b))
            && (forall a, b :: a < NUSER ==> Page(m, d, a, b) == if a == i
                && b == j then bytes else Page(y.mem, d, a, b))
  {
    assert LeafOk(y, d, i, j);
    var g := Look(y.mem, d, i, j).frame;
    var m := y.mem[g := Data(bytes)];
    var y' := y.(mem := m);
    forall e, a | e in y.dirs ensures Entry(m, e, a) == Entry(y.mem, e, a) {
      assert DirOk(y, e);
    }
    forall e, a, b | e in y.dirs ensures Look(m, e, a, b) == Look(y.mem, e, a, b) {
      assert Present(Entry(y.mem, e, a)) ==> TabOk(y, e, a);
    }
    hide Look;
    forall e | e in y.dirs ensures DirOk(y', e) {
      assert DirOk(y, e);
    }
    forall e, a | e in y.dirs && Present(Entry(m, e, a)) ensures TabOk(y', e, a) {
      assert TabOk(y, e, a);
    }
    forall e, a, b | e in y.dirs && Present(Look(m, e, a, b)) ensures LeafOk(y', e, a, b) {
      assert LeafOk(y, e, a, b);
    }
    forall f | f in y'.owner ensures OwnerOk(y', f) {
      assert OwnerOk(y, f);
    }
    forall e, a, b | e in y.dirs && a < NUSER
      ensures Page(m, e, a, b) == if e == d && a == i && b == j then bytes else Page(y.mem, e, a, b)
    {
      assert Present(Look(y.mem, e, a, b)) ==> LeafOk(y, e, a, b);
    }
  }

  /** Changing the flags of an entry, without opening a kernel page to users. */
  lemma Reflag(y: Pool, d: int, i: int, j: int, flags: nat)
    requires Good(y) && d in y.dirs && Present(Entry(y.mem, d, i)) && 0 <= j < NENTRIES
    requires var p := Look(y.mem, d, i, j); (Present(p) <==> flags % 2 == 1) && (User(Pte(p.frame, flags)) ==> User(p))
    ensures TabOk(y, d, i)
    ensures var m := SetEntry(y.mem, Entry(y.mem, d, i).frame, j, Pte(Look(y.mem, d, i, j).frame, flags));
            && Good(y.(mem := m)) && OthersSame(y, y.(mem := m), d)
            && (forall a, b :: Look(m, d, a, b) ==
                  if a == i && b == j then Pte(Look(y.mem, d, i, j).frame, flags) else Look(y.mem, d, a, b))
            && (forall a, b :: a < NUSER ==> Page(m, d, a, b) == Page(y.mem, d, a, b))
  {
    var p := Pte(Look(y.mem, d, i, j).frame, flags);
    SetLooks(y, d, i, j, p);
    var m := SetEntry(y.mem, Entry(y.mem, d, i).frame, j, p);
    var y' := y.(mem := m);
    hide SetEntry, Look;
    forall e | e in y.dirs ensures DirOk(y', e) {
      assert DirOk(y, e);
    }
    forall e, a | e in y.dirs && Present(Entry(m, e, a)) ensures TabOk(y', e, a) {
      assert TabOk(y, e, a);
    }
    forall e, a, b | e in y.dirs && Present(Look(m, e, a, b)) ensures LeafOk(y', e, a, b) {
      assert LeafOk(y, e, a, b);
    }
    forall f | f in y'.owner ensures OwnerOk(y', f) {
      assert OwnerOk(y, f);
    }
    forall e, a, b | e in y.dirs && a < NUSER ensures Page(m, e, a, b) == Page(y.mem, e, a, b) {
      assert Present(Look(y.mem, e, a, b)) ==> LeafOk(y, e, a, b);
    }
  }

  /** No two user pages, of whatever processes, share a frame. */
  lemma OwnFrames(y: Pool, d: int, i: int, j: int, e: int, a: int, b: int)
    requires Good(y) && d in y.dirs && e in y.dirs && i < NUSER && a < NUSER
    requires Present(Look(y.mem, d, i, j)) && Present(Look(y.mem, e, a, b))
             && Look(y.mem, d, i, j).frame == Look(y.mem, e, a, b).frame
    ensures d == e && i == a && j == b
  {
    assert LeafOk(y, d, i, j) && LeafOk(y, e, a, b);
  }
}
