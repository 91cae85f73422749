/** kalloc.c and the user half of vm.c. Sizes and addresses are given in pages where the source rounds them to pages. */
module Vm {
  import opened PageTables
  import opened Pages

  /** The entry and the bytes of virtual page `v`. */
  function At(m: Mem, d: int, v: int): (p: Pte) {
    Look(m, d, Dx(v), Tx(v))
  }

  function PageAt(m: Mem, d: int, v: int): (b: seq<int>) {
    Page(m, d, Dx(v), Tx(v))
  }

  function ZeroPage(): (b: seq<int>)
    ensures |b| == PGSIZE && forall k :: 0 <= k < PGSIZE ==> b[k] == 0
  {
    seq(PGSIZE, _ => 0)
  }

  class Vm {
    var mem: Mem
    var free: seq<int>
    ghost var dirs: set<int>
    ghost var owner: map<int, Owner>

    ghost function Now(): (y: Pool)
      reads this
    {
      Pool(mem, free, dirs, owner)
    }

    ghost predicate Valid()
      reads this
    {
      Good(Now())
    }

    /** Before kinit: every frame belongs to nobody. */
    constructor (frames: set<int>)
      ensures Valid() && free == [] && dirs == {} && owner.Keys == frames && forall f :: f in frames ==>
              owner[f] == Held
    {
      mem := map f | f in frames :: Junk;
      free, dirs := [], {};
      owner := map f | f in frames :: Held;
    }

    /** kfree */
    method Kfree(f: int)
      requires Valid() && f in owner && owner[f] == Held
      modifies this
      ensures Valid() && SameAll(old(Now()), mem) && dirs == old(dirs)
      ensures free == [f] + old(free) && owner == old(owner)[f := Free] && mem == old(mem)[f := Junk]
    {
      hide Good, SameSpace;
      ScratchWrite(Now(), f, Junk);
      mem := mem[f := Junk];
      GiveGood(Now(), f);
      free := [f] + free;
      owner := owner[f := Free];
    }

    /** kalloc */
    method Kalloc() returns (ok: bool, f: int)
      requires Valid()
      modifies this`free, this`owner
      ensures Valid() && (ok <==> old(free) != [])
      ensures !ok ==> free == old(free) && owner == old(owner)
      ensures ok ==>
                && f == old(free)[0] && free == old(free)[1..] && f in owner && owner == old(owner)[f := Held]
                && f in old(owner) && old(owner)[f] == Free
    {
      hide Good;
      if free == [] {
        return false, 0;
      }
      TakeGood(Now());
      ok, f := true, free[0];
      free := free[1..];
      owner := owner[f := Held];
    }

    /** freerange over frames `lo` to `hi` */
    method Freerange(lo: int, hi: int)
      requires Valid() && lo <= hi && forall f :: lo <= f < hi ==> f in owner && owner[f] == Held
      modifies this
      ensures Valid() && SameAll(old(Now()), mem) && dirs == old(dirs)
      ensures forall f :: f in free <==> f in old(free) || lo <= f < hi
      ensures |free| == |old(free)| + (hi - lo)
    {
      hide Good, SameSpace;
      var p := lo;
      SameAllRefl(Now());
      while p < hi
        invariant lo <= p <= hi && Valid() && dirs == old(dirs) && SameAll(old(Now()), mem)
        invariant forall f :: f in free <==> f in old(free) || lo <= f < p
        invariant |free| == |old(free)| + (p - lo)
        invariant forall f :: p <= f < hi ==> f in owner && owner[f] == Held
      {
        ghost var y := Now();
        Kfree(p);
        SameAllTrans(old(Now()), y, mem);
        p := p + 1;
      }
    }

    /** walkpgdir: the table for directory slot `i`, made on demand; what is mapped does not change. */
    method Walk(d: int, i: int, alloc: bool) returns (ok: bool, t: int)
      requires Valid() && d in dirs && 0 <= i < NENTRIES
      modifies this
      ensures Valid() && dirs == old(dirs) && SameAll(old(Now()), mem)
      ensures ok ==> Present(Entry(mem, d, i)) && t == Entry(mem, d, i).frame
      ensures !ok ==> !Present(Entry(mem, d, i)) && Now() == old(Now()) && (alloc ==> free == [])
      ensures old(Present(Entry(mem, d, i))) || !alloc ==> Now() == old(Now())
      ensures OnlyTo(old(owner), owner, d)
      ensures ok && !old(Present(Entry(mem, d, i))) ==>
                old(free) != [] && t == old(free)[0] && free == old(free)[1..] && owner == old(owner)[t := Tab(d, i)]
      ensures forall a :: a != i ==> Entry(mem, d, a) == old(Entry(mem, d, a))
      ensures forall f :: f in old(owner) && old(owner)[f] == Held ==>
              f in mem && mem[f] == old(mem)[f]
              && owner[f] == Held
    {
      hide Good, SameSpace, SetEntry, ZeroTable;
      SameAllRefl(Now());
      IsDir(d);
      Keys();
      var pde := mem[d].ptes[i];
      if pde.flags % 2 == 1 {
        return true, pde.frame;
      }
      if !alloc {
        return false, 0;
      }
      ok, t := Kalloc();
      if !ok {
        return;
      }
      Fresh(d, t);
      ghost var y := Now();
      ScratchWrite(y, t, ZeroTable());
      ZeroEntries(mem, t);
      mem := mem[t := ZeroTable()];
      ghost var y1 := Now();
      LinkTab(y1, d, i, t, PTE_P + PTE_W + PTE_U);
      mem := SetEntry(mem, d, i, Pte(t, PTE_P + PTE_W + PTE_U));
      owner := owner[t := Tab(d, i)];
      SameAllTrans(old(Now()), y1, mem);
    }

    /** One round of mappages: it fails exactly for want of a table. */
    method MapOne(d: int, v: int, p: Pte) returns (ok: bool)
      requires Valid() && d in dirs && 0 <= v < NENTRIES * NENTRIES && !Present(At(mem, d, v)) && Present(p)
      requires if Dx(v) < NUSER then p.frame in owner && owner[p.frame] == Held && IsData(mem, p.frame) else !User(p)
      modifies this
      ensures Valid() && dirs == old(dirs) && OthersSame(old(Now()), Now(), d)
      ensures ok <==> old(Present(Entry(mem, d, Dx(v)))) || old(free) != []
      ensures !ok ==> Now() == old(Now())
      ensures ok ==>
                && Mapped(old(mem), mem, d, v, p)
                && free == (if old(Present(Entry(mem, d, Dx(v)))) then old(free) else old(free)[1..])
                && OnlyTo(if Dx(v) < NUSER then old(owner)[p.frame := Free] else old(owner), owner, d)
                && (forall k :: Present(Entry(mem, d, k)) <==> old(Present(Entry(mem, d, k))) || k == Dx(v))
      ensures ok && Dx(v) < NUSER ==> PageAt(mem, d, v) == old(mem)[p.frame].bytes
      ensures forall f :: f in old(owner) && old(owner)[f] == Held && (f != p.frame || Dx(v) >= NUSER) ==>
                f in owner && owner[f] == Held
    {
      hide Good, SameSpace, SetEntry, Look, Page;
      var t;
      ok, t := Walk(d, Dx(v), true);
      ghost var y := Now();
      SameAllOthers(old(Now()), y, d);
      if !ok {
        return;
      }
      SameLooks(old(mem), mem, d);
      LinkLeaf(y, d, Dx(v), Tx(v), p);
      mem := SetEntry(mem, t, Tx(v), p);
      if Dx(v) < NUSER {
        owner := owner[p.frame := Leaf(d, Dx(v), Tx(v))];
      }
      OthersTrans(old(Now()), y, Now(), d);
    }

    lemma Keys()
      requires Valid()
      ensures owner.Keys == mem.Keys
    {
    }

    /** mappages of `n` kernel pages from `v` on, to frames from `f` on: it fails exactly when the free list is shorter
        than the tables it has to make, and then has used it up. */
    method Mappages(d: int, v: int, n: nat, f: int, perm: nat) returns (ok: bool)
      requires Valid() && d in dirs && NUSERPAGES <= v && 0 < n && v + n <= NENTRIES * NENTRIES
      requires KernelOnly(mem, d, v) && !User(Pte(f, Or1(perm)))
      modifies this
      ensures Valid() && dirs == old(dirs) && OthersSame(old(Now()), Now(), d) && KernelOnly(mem, d, v + n)
      ensures OnlyTo(old(owner), owner, d)
      ensures ok <==> |old(free)| >= |Lacking(old(mem), d, v, v + n)|
      ensures if ok then TookTables(old(Now()), Now(), d, v, v + n) else free == []
      ensures ok ==> forall w :: 0 <= w < NENTRIES * NENTRIES ==>
                At(mem, d, w) == if v <= w < v + n then Pte(f + (w - v), Or1(perm)) else old(At(mem, d, w))
      ensures forall g :: g in old(owner) && old(owner)[g] == Held ==> g in owner && owner[g] == Held
    {
      hide Good, SameSpace, Look, Page, Present, User, Or1, OthersSame, TookTables, Lacking;
      OthersRefl(Now(), d);
      TookTablesNone(Now(), d, v);
      var k := 0;
      while true
        invariant 0 <= k < n && Valid() && dirs == old(dirs) && OthersSame(old(Now()), Now(), d)
                  && KernelOnly(mem, d, v + k)
        invariant forall w :: 0 <= w < NENTRIES * NENTRIES ==>
                    At(mem, d, w) == if v <= w < v + k then Pte(f + (w - v), Or1(perm)) else old(At(mem, d, w))
        invariant forall g :: g in old(owner) && old(owner)[g] == Held ==> g in owner && owner[g] == Held
        invariant OnlyTo(old(owner), owner, d) && TookTables(old(Now()), Now(), d, v, v + k)
        decreases n - k
      {
        ghost var y := Now();
        var p := Pte(f + k, Or1(perm));
        KernelNext(mem, d, v + k, p);
        Or1Present(f + k, f, perm);
        ok := MapOne(d, v + k, p);
        OthersTrans(old(Now()), y, Now(), d);
        if !ok {
          KernelMore(mem, d, v + k, v + n);
          NoTable(old(Now()), y, d, v, v + k, v + n);
          return;
        }
        MappedKernel(y.mem, mem, d, v + k, p);
        OnlyToTrans(old(owner), y.owner, owner, d);
        TookTablesNext(old(Now()), y, Now(), d, v, v + k);
        if k == n - 1 {
          EnoughTables(old(Now()), Now(), d, v, v + n);
          return;
        }
        k := k + 1;
      }
    }

    /** setupkvm: a directory with the kernel's mappings and no user page, in one frame for the directory and one for
        each of its tables. With fewer frames than that it fails, and every frame that was free then belongs to a
        directory that nobody has. */
    method Setupkvm(kmap: seq<Range>) returns (ok: bool, d: int)
      requires Valid() && Kernel(kmap)
      modifies this
      ensures Valid() && SameAll(old(Now()), mem)
      ensures ok <==> |old(free)| > |Slots(kmap)|
      ensures ok ==>
                && free == old(free)[1 + |Slots(kmap)|..] && dirs == old(dirs) + {d} && d !in old(dirs)
                && KernelOnly(mem, d, NENTRIES * NENTRIES) && Tabled(mem, d, kmap)
      ensures ok ==> forall k, w :: 0 <= k < |kmap| && kmap[k].v <= w < kmap[k].v + kmap[k].n ==>
                At(mem, d, w) == Pte(kmap[k].f + (w - kmap[k].v), Or1(kmap[k].perm))
      ensures !ok ==> free == [] && dirs == old(dirs) + if old(free) == [] then {} else {d}
      ensures OnlyTo(old(owner), owner, d)
      ensures forall f :: f in old(owner) && old(owner)[f] == Held ==> f in owner && owner[f] == Held
    {
      hide Good, SameAll, OthersSame, Look, KernelOnly, Or1, Present, Slots, Tabled, OnlyTo;
      ok, d := EmptyDirectory();
      if !ok {
        return;
      }
      ghost var y := Now();
      LinedNone(y, d, kmap);
      ok := MapLines(d, kmap);
      OnlyToTrans(old(owner), y.owner, owner, d);
      SameAfterOthers(old(Now()), y, Now(), d);
    }

    /** A directory that maps nothing. */
    method EmptyDirectory() returns (ok: bool, d: int)
      requires Valid()
      modifies this
      ensures Valid() && SameAll(old(Now()), mem) && OnlyTo(old(owner), owner, d) && (ok <==> old(free) != [])
      ensures !ok ==> Now() == old(Now())
      ensures ok ==>
                && free == old(free)[1..] && dirs == old(dirs) + {d} && d !in old(dirs)
                && KernelOnly(mem, d, NUSERPAGES) && forall k :: Entry(mem, d, k) == NOPTE
      ensures forall f :: f in old(owner) && old(owner)[f] == Held ==> f in owner && owner[f] == Held
    {
      hide Good, SameSpace, ZeroTable, Look, Page, KernelOnly, Present;
      SameAllRefl(Now());
      ok, d := Kalloc();
      if !ok {
        return;
      }
      ScratchWrite(Now(), d, ZeroTable());
      ZeroEntries(mem, d);
      mem := mem[d := ZeroTable()];
      NewDir(Now(), d);
      KernelNone(mem, d);
      dirs := dirs + {d};
      owner := owner[d := Dir];
    }

    /** The loop of setupkvm over the lines of kmap. */
    method MapLines(d: int, kmap: seq<Range>) returns (ok: bool)
      requires Valid() && Kernel(kmap) && d in dirs && KernelOnly(mem, d, NUSERPAGES)
               && Lined(free, Now(), d, kmap[..0])
      modifies this
      ensures Valid() && dirs == old(dirs) && OthersSame(old(Now()), Now(), d) && OnlyTo(old(owner), owner, d)
      ensures ok <==> |old(free)| >= |Slots(kmap)|
      ensures if ok then Lined(old(free), Now(), d, kmap) && KernelOnly(mem, d, NENTRIES * NENTRIES) else free == []
      ensures ok ==> forall k, w :: 0 <= k < |kmap| && kmap[k].v <= w < kmap[k].v + kmap[k].n ==>
                At(mem, d, w) == Pte(kmap[k].f + (w - kmap[k].v), Or1(kmap[k].perm))
      ensures forall f :: f in old(owner) && old(owner)[f] == Held ==> f in owner && owner[f] == Held
    {
      hide Good, SameSpace, Look, Page, KernelOnly, User, Or1, Present, TookTables, Lacking, Slots, Tabled, OthersSame,
           Lined, OnlyTo;
      OthersRefl(Now(), d);
      OnlyToSame(owner, d);
      var k := 0;
      while k < |kmap|
        invariant 0 <= k <= |kmap| && Valid() && dirs == old(dirs) && OthersSame(old(Now()), Now(), d)
        invariant KernelOnly(mem, d, Top(kmap, k))
        invariant forall l, w :: 0 <= l < k && kmap[l].v <= w < kmap[l].v + kmap[l].n ==>
                    At(mem, d, w) == Pte(kmap[l].f + (w - kmap[l].v), Or1(kmap[l].perm))
        invariant forall f :: f in old(owner) && old(owner)[f] == Held ==> f in owner && owner[f] == Held
        invariant OnlyTo(old(owner), owner, d) && Lined(old(free), Now(), d, kmap[..k])
      {
        ghost var y := Now();
        var r := kmap[k];
        KernelMore(mem, d, Top(kmap, k), r.v);
        ok := Mappages(d, r.v, r.n, r.f, r.perm);
        OnlyToTrans(old(owner), y.owner, owner, d);
        OthersTrans(old(Now()), y, Now(), d);
        if !ok {
          LinedFails(old(free), y, d, kmap, k);
          return;
        }
        LinedNext(old(free), y, Now(), d, kmap[..k], r);
        TakeOne(kmap, k);
        k := k + 1;
      }
      ok := true;
      assert kmap[..k] == kmap;
      LinedEnough(old(free), Now(), d, kmap);
      KernelMore(mem, d, Top(kmap, k), NENTRIES * NENTRIES);
    }

    /** A mapped user page goes: its entry is cleared and its frame given back. The source does the two the other way
        round, which makes no difference. */
    method DropPage(d: int, v: int)
      requires Valid() && d in dirs && 0 <= v < NUSERPAGES && Present(At(mem, d, v))
      modifies this
      ensures Valid() && dirs == old(dirs) && OthersSame(old(Now()), Now(), d)
      ensures Mapped(old(mem), mem, d, v, NOPTE) && forall a :: Entry(mem, d, a) == old(Entry(mem, d, a))
      ensures var f := old(At(mem, d, v)).frame;
              && f in old(owner) && old(owner)[f] == Leaf(d, Dx(v), Tx(v))
              && owner == old(owner)[f := Free] && free == [f] + old(free)
    {
      hide Good, SameSpace, SetEntry, Look, Page;
      SplitUser(v);
      ghost var y := Now();
      DropLeaf(y, d, Dx(v), Tx(v));
      WalkTwice(mem, d, Dx(v), Tx(v));
      var t := mem[d].ptes[Dx(v)].frame;
      var f := mem[t].ptes[Tx(v)].frame;
      mem := SetEntry(mem, t, Tx(v), NOPTE);
      owner := owner[f := Held];
      ghost var y1 := Now();
      Kfree(f);
      SameAllOthers(y1, Now(), d);
      OthersTrans(y, y1, Now(), d);
      SameLooks(y1.mem, mem, d);
      SameEntries(y1, f, d);
    }

    /** deallocuvm from page `lo` to page `hi`: exactly the pages that its loop looks at go, and their frames are free
        again. These are all that are mapped there if the 4MB skip passes over no table, or if none is mapped. */
    method DeallocPages(d: int, hi: int, lo: int)
      requires Valid() && d in dirs && 0 <= lo <= hi <= NUSERPAGES
      modifies this
      ensures Valid() && Cleared(old(Now()), Now(), d, Visited(old(Tabs(mem, d)), lo, hi))
      ensures old(NoTableSkipped(Tabs(mem, d), lo, hi) || Empty(mem, d, lo, hi)) ==>
              Cleared(old(Now()), Now(), d, Span(lo, hi))
    {
      hide Good, Cleared, SameSpace, Look, Page, Mapped, OthersSame, Visits, NoTableSkipped, Empty;
      ghost var tabs := Tabs(mem, d);
      var a := lo;
      ghost var gone: set<int> := {};
      ClearedNone(Now(), d);
      while a < hi
        invariant lo <= a && Valid() && d in dirs && Tabs(mem, d) == tabs && gone <= Span(lo, hi)
        invariant Cleared(old(Now()), Now(), d, gone)
        invariant forall v :: Visits(tabs, lo, hi, v) <==> v in gone || Visits(tabs, a, hi, v)
      {
        ghost var y, here := Now(), a;
        SplitUser(a);
        VisitsNext(tabs, a, hi);
        var ok, t := Walk(d, Dx(a), false);
        if !ok {
          NoTableHere(y.mem, d, a);
          ClearedSkip(old(Now()), y, d, gone, {a});
          a := a + (NENTRIES - 1);
        } else {
          TableHere(d, Dx(a));
          if Present(mem[t].ptes[Tx(a)]) {
            DropPage(d, a);
            ClearedNext(old(Now()), y, Now(), d, gone, a);
          } else {
            OnPage(a);
            ClearedSkip(old(Now()), y, d, gone, {a});
          }
        }
        gone := gone + {here};
        a := a + 1;
      }
      VisitsEnd(tabs, a, hi);
      assert gone == Visited(tabs, lo, hi);
      if old(NoTableSkipped(Tabs(mem, d), lo, hi)) || old(Empty(mem, d, lo, hi)) {
        ClearedRange(old(Now()), Now(), d, lo, hi);
      }
    }

    /** deallocuvm, for sizes in bytes. */
    method Deallocuvm(d: int, oldsz: int, newsz: int) returns (r: int)
      requires Valid() && d in dirs && 0 <= oldsz <= KERNBASE && 0 <= newsz
      modifies this
      ensures Valid() && r == if newsz < oldsz then newsz else oldsz
      ensures newsz >= oldsz ==> Now() == old(Now())
      ensures newsz < oldsz ==>
                Cleared(old(Now()), Now(), d, Visited(old(Tabs(mem, d)), RoundUp(newsz), RoundUp(oldsz)))
      ensures newsz < oldsz ==> ShrunkBytes(old(mem), mem, d, newsz, oldsz)
      ensures newsz < oldsz && old(NoTableSkipped(Tabs(mem, d), RoundUp(newsz), RoundUp(oldsz))) ==>
                forall v :: StartsIn(v, newsz, oldsz) ==> !Present(At(mem, d, v))
    {
      hide Good, Cleared, Visited, Empty, NoTableSkipped;
      if newsz >= oldsz {
        return oldsz;
      }
      RoundUpOrder(newsz, oldsz);
      DeallocPages(d, RoundUp(oldsz), RoundUp(newsz));
      ClearedBytes(old(Now()), Now(), d, old(Tabs(mem, d)), newsz, oldsz);
      if old(NoTableSkipped(Tabs(mem, d), RoundUp(newsz), RoundUp(oldsz))) {
        ClearedEmpty(old(Now()), Now(), d, RoundUp(newsz), RoundUp(oldsz));
        EmptyBytes(mem, d, newsz, oldsz);
      }
      return newsz;
    }

    /** freevm: every frame of the process (user pages, tables and the directory) goes to the free list, each exactly
        once (the free list of a valid pool has no duplicates), and no other process notices. */
    method Freevm(d: int)
      requires Valid() && d in dirs
      modifies this
      ensures Valid() && dirs == old(dirs) - {d} && SameBut(old(Now()), mem, d)
      ensures owner.Keys == old(owner).Keys
      ensures forall f :: f in old(owner) ==> owner[f] == if Belongs(old(owner)[f], f, d) then Free else old(owner)[f]
    {
      hide Good, Cleared, SameSpace, Look, Page, OthersSame, Visited, Tabs, Empty;
      DeallocPages(d, NUSERPAGES, 0);
      ghost var y := Now();
      ClearedAll(old(Now()), y, d);
      RetireGood(y, d);
      DirKept(y, d);
      dirs, owner := dirs - {d}, Retired(y, d).owner;
      FreeTables(d, y);
      ghost var y1 := Now();
      Kfree(d);
      SameButMore(old(Now()), y, y1, Now(), d);
      Given(old(Now()), y, d);
    }

    /** The loop of freevm over the directory. */
    method FreeTables(d: int, ghost y: Pool)
      requires Good(y) && d in y.dirs && Valid() && Now() == Retired(y, d) && DirOk(y, d)
      modifies this
      ensures Valid() && dirs == y.dirs - {d} && SameBut(y, mem, d) && owner.Keys == y.owner.Keys && d in owner
              && owner[d] == Held
      ensures forall f :: f in y.owner ==> owner[f] == Giving(y.owner[f], f, d, NENTRIES)
    {
      hide Good, SameSpace, Look, Page, Present;
      SameButRefl(y, d);
      GivingNone(y, d);
      var i := 0;
      while i < NENTRIES
        invariant 0 <= i <= NENTRIES && Valid() && dirs == y.dirs - {d} && SameBut(y, mem, d)
                  && owner.Keys == y.owner.Keys
        invariant d in mem && mem[d] == y.mem[d]
        invariant forall f :: f in y.owner ==> owner[f] == Giving(y.owner[f], f, d, i)
      {
        TableOwned(y, d, i);
        var pde := mem[d].ptes[i];
        if Present(pde) {
          ghost var z := Now();
          Kfree(pde.frame);
          SameButStep(y, z, mem, d);
        }
        i := i + 1;
      }
    }

    /** A fresh page with these bytes and flags: kalloc, the bytes, and mappages of one page. It takes a frame for the
        page and, if need be, one for its table; if only the first can be had, that frame is lost. */
    method NewPage(d: int, v: int, bytes: seq<int>, flags: nat) returns (got: bool, mapped: bool, g: int)
      requires Valid() && d in dirs && 0 <= v < NUSERPAGES && !Present(At(mem, d, v)) && |bytes| == PGSIZE
               && flags % 2 == 1
      modifies this
      ensures Valid() && dirs == old(dirs) && OthersSame(old(Now()), Now(), d)
      ensures got <==> old(free) != []
      ensures mapped <==> |old(free)| >= old(Need(mem, d, v))
      ensures !got ==> Now() == old(Now())
      ensures got ==> g == old(free)[0] && g in old(owner) && old(owner)[g] == Free
      ensures mapped ==>
                && Mapped(old(mem), mem, d, v, Pte(g, flags)) && PageAt(mem, d, v) == bytes
                && free == old(free)[old(Need(mem, d, v))..] && OnlyTo(old(owner), owner, d)
                && (forall k :: Present(Entry(mem, d, k)) <==> old(Present(Entry(mem, d, k))) || k == Dx(v))
      ensures got && !mapped ==>
                && free == [] && owner == old(owner)[g := Held] && SameSpace(old(mem), mem, d)
                && forall k :: Entry(mem, d, k) == old(Entry(mem, d, k))
    {
      hide Good, SameSpace, OthersSame, Look, Page, Present;
      mapped := false;
      OthersRefl(Now(), d);
      got, g := Kalloc();
      if !got {
        return;
      }
      ghost var y1 := Now();
      ScratchWrite(y1, g, Data(bytes));
      ScratchEntries(y1, g, Data(bytes), d);
      mem := mem[g := Data(bytes)];
      ghost var y2 := Now();
      SameAllOthers(y1, y2, d);
      OthersMem(old(Now()), old(Now()), y1, d);
      OthersTrans(old(Now()), y1, y2, d);
      SameLooks(y1.mem, mem, d);
      SplitUser(v);
      OddPresent(g, flags);
      mapped := MapOne(d, v, Pte(g, flags));
      OthersTrans(old(Now()), y2, Now(), d);
      assert old(owner)[g := Held][g := Free] == old(owner);
    }

    /** copyuvm of `n` pages: the child has the parent's bytes and flags, in frames of its own, and no other user page;
        no existing process notices. It takes what setupkvm takes (`started`), one frame a page and one for every 1024
        pages. When the frames run out at a page table, the page just copied is lost; otherwise a failure after setupkvm
        gives everything back. */
    method Copyuvm(parent: int, n: int, kmap: seq<Range>)
                   returns (ok: bool, d: int, ghost lost: set<int>, ghost started: bool)
      requires Valid() && parent in dirs && 0 <= n <= NUSERPAGES && Kernel(kmap)
      requires forall v :: 0 <= v < n ==> Present(At(mem, parent, v))
      modifies this
      ensures Valid() && SameAll(old(Now()), mem)
      ensures started <==> |old(free)| > |Slots(kmap)|
      ensures ok <==> |old(free)| > |Slots(kmap)| + n + (n + (NENTRIES - 1)) / NENTRIES
      ensures ok ==>
              dirs == old(dirs) + {d} && d !in old(dirs) && Copied(old(mem), mem, parent, d, n)
              && OnlyTo(old(owner), owner, d)
      ensures lost != {} <==> CopyLoses(|old(free)| - 1 - |Slots(kmap)|, n)
      ensures lost != {} ==> lost == {old(free)[|old(free)| - 1]}
      ensures !ok && started ==>
                && dirs == old(dirs) && owner.Keys == old(owner).Keys
                && (forall f :: f in old(owner) ==> owner[f] == if f in lost then Held else old(owner)[f])
      ensures !started ==>
              free == [] && dirs == old(dirs) + (if old(free) == [] then {} else {d})
              && OnlyTo(old(owner), owner, d)
    {
      hide Good, SameSpace, Look, Page, OthersSame, KernelOnly, Present, Copied, OnlyTo, OnlyBut, Belongs, FreeOk,
           Slots, Took,
           Stranded, Frames, CopyLoses;
      lost := {};
      ghost var y0 := Now();
      ok, d := Setupkvm(kmap);
      started := ok;
      if !ok {
        NoStrands(|y0.free| - 1 - |Slots(kmap)|, n);
        return;
      }
      ghost var y1 := Now();
      BareDir(kmap, mem, d);
      CopiedNone(y0.mem, mem, parent, d);
      TookNone(y1, d, 0);
      var v := 0;
      while v < n
        invariant 0 <= v <= n && Valid() && dirs == y0.dirs + {d} && SameAll(y0, mem) && lost == {}
        invariant Copied(y0.mem, mem, parent, d, v) && OnlyTo(y0.owner, owner, d) && Took(y1, Now(), d, 0, v)
      {
        ok, lost := CopyPage(parent, d, v, y0, y1);
        if !ok {
          ghost var z := Now();
          IsDir(d);
          Freevm(d);
          SameAfterFree(y0, z, mem, d);
          BackAgain(y0, z.owner, owner, d, lost);
          CopyEnds(y1, d, v, n, lost == {});
          return;
        }
        v := v + 1;
      }
      ok := true;
      CopyFits(y1, Now(), d, n);
    }

    /** One round of copyuvm. */
    method CopyPage(parent: int, d: int, v: int, ghost y0: Pool, ghost y1: Pool)
                    returns (ok: bool, ghost lost: set<int>)
      requires Valid() && Good(y0) && parent in y0.dirs && d !in y0.dirs && dirs == y0.dirs + {d} && 0 <= v < NUSERPAGES
      requires SameAll(y0, mem) && Present(At(y0.mem, parent, v))
      requires Copied(y0.mem, mem, parent, d, v) && OnlyTo(y0.owner, owner, d) && Took(y1, Now(), d, 0, v)
      modifies this
      ensures Valid() && dirs == old(dirs) && SameAll(y0, mem)
      ensures ok ==>
              lost == {} && Copied(y0.mem, mem, parent, d, v + 1) && OnlyTo(y0.owner, owner, d)
              && Took(y1, Now(), d, 0, v + 1)
      ensures !ok ==> OnlyBut(y0.owner, owner, d, lost)
      ensures !ok ==> if lost == {} then |y1.free| == Frames(y1.mem, d, 0, v)
                      else Stranded(y1, d, 0, v) && lost == {y1.free[|y1.free| - 1]}
    {
      hide Good, SameSpace, Look, Page, OthersSame, Present, Copied, Mapped, OnlyTo, OnlyBut, Belongs, FreeOk, Took,
           Stranded, Frames;
      lost := {};
      SplitUser(v);
      SameLooks(y0.mem, mem, parent);
      PageRead(Now(), parent, v);
      WalkTwice(mem, parent, Dx(v), Tx(v));
      var pte := mem[mem[parent].ptes[Dx(v)].frame].ptes[Tx(v)];
      ghost var y := Now();
      NotYet(y0.mem, mem, parent, d, v);
      IsPresent(pte);
      var got, g;
      got, ok, g := NewPage(d, v, mem[pte.frame].bytes, pte.flags);
      SameAfterOthers(y0, y, Now(), d);
      TookOne(y1, y, Now(), d, 0, v, got, ok);
      if ok {
        IsPresent(Pte(g, pte.flags));
        CopiedNext(y0.mem, y.mem, mem, parent, d, v, Pte(g, pte.flags));
        OnlyToTrans(y0.owner, y.owner, owner, d);
      } else if got {
        WasFree(y0.owner, y.owner, g, d);
        lost := {g};
        OnlyButOne(y0.owner, y.owner, owner, d, g);
      } else {
        OnlyBut0(y0.owner, owner, d);
      }
    }

    /** uva2ka: the frame of a page that is present and open to users. The source follows the table without checking
        that there is one. */
    method Uva2ka(d: int, v: int) returns (ok: bool, f: int)
      requires Valid() && d in dirs && 0 <= v < NENTRIES * NENTRIES && Present(Entry(mem, d, Dx(v)))
      ensures ok <==> Accessible(mem, d, v)
      ensures ok ==> f == At(mem, d, v).frame
    {
      hide Good, Look;
      IsDir(d);
      TableHere(d, Dx(v));
      var t := mem[d].ptes[Dx(v)].frame;
      var pte := mem[t].ptes[Tx(v)];
      ok := Present(pte) && User(pte);
      f := pte.frame;
    }

    /** copyout: one contiguous write at virtual address `va`, across pages; on the first page that users may not touch
        it stops, with everything before that page written. */
    method Copyout(d: int, va: int, src: seq<int>) returns (ok: bool, ghost k: int)
      requires Valid() && d in dirs && 0 <= va && va + |src| <= NENTRIES * NENTRIES * PGSIZE
      requires forall x :: va <= x < va + |src| ==> Present(Entry(mem, d, Dx(x / PGSIZE)))
      modifies this`mem
      ensures Valid() && OthersSame(old(Now()), Now(), d)
      ensures 0 <= k <= |src| && Written(old(mem), mem, d, va, src[..k]) && (ok <==> k == |src|)
      ensures forall x :: va <= x < va + k ==> Accessible(old(mem), d, x / PGSIZE)
      ensures !ok ==> !Accessible(old(mem), d, (va + k) / PGSIZE) && (k == 0 || (va + k) % PGSIZE == 0)
    {
      hide Good, SameSpace, OthersSame, Look, Page, Entry, Present, User, Written, Accessible;
      k := 0;
      WrittenNone(mem, d, va, src);
      OthersRefl(Now(), d);
      var done := 0;
      while done < |src|
        invariant 0 <= done <= |src| && k == done && Valid() && OthersSame(old(Now()), Now(), d)
        invariant Written(old(mem), mem, d, va, src[..done])
        invariant forall i :: Entry(mem, d, i) == old(Entry(mem, d, i))
        invariant done == 0 || done == |src| || (va + done) % PGSIZE == 0
        invariant forall x :: va <= x < va + done ==> Accessible(old(mem), d, x / PGSIZE)
      {
        ghost var y := Now();
        var v := (va + done) / PGSIZE;
        PageRange(va + done);
        var f;
        ok, f := Uva2ka(d, v);
        WrittenLooks(old(mem), mem, d, va, src[..done], v);
        if !ok {
          return;
        }
        UserPage(Now(), d, v);
        PageRead(Now(), d, v);
        var off := (va + done) % PGSIZE;
        var n := if PGSIZE - off > |src| - done then |src| - done else PGSIZE - off;
        var was := mem[f].bytes;
        var bytes := was[..off] + src[done..done + n] + was[off + n..];
        SplitUser(v);
        WriteLeaf(y, d, Dx(v), Tx(v), bytes);
        mem := mem[f := Data(bytes)];
        DataEntries(y, f, bytes, d);
        OthersTrans(old(Now()), y, Now(), d);
        WrittenNext(old(mem), y.mem, mem, d, va, src, done, n, v, bytes);
        SamePage(va + done, n);
        done := done + n;
        k := done;
      }
      ok := true;
    }

    /** clearpteu: users lose access to one page; its frame and other flags, and all other pages, stay. */
    method Clearpteu(d: int, v: int)
      requires Valid() && d in dirs && 0 <= v < NENTRIES * NENTRIES && Present(Entry(mem, d, Dx(v)))
      modifies this`mem
      ensures Valid() && OthersSame(old(Now()), Now(), d)
      ensures At(mem, d, v).frame == old(At(mem, d, v)).frame && At(mem, d, v).flags / 4 % 2 == 0
      ensures At(mem, d, v).flags % 4 == old(At(mem, d, v)).flags % 4
      ensures At(mem, d, v).flags / 8 == old(At(mem, d, v)).flags / 8
      ensures forall w :: w != v ==> At(mem, d, w) == old(At(mem, d, w))
      ensures forall i, j :: i < NUSER ==> Page(mem, d, i, j) == old(Page(mem, d, i, j))
    {
      hide Good, Look, Page, SetEntry, OthersSame;
      IsDir(d);
      TableHere(d, Dx(v));
      var t := mem[d].ptes[Dx(v)].frame;
      var pte := mem[t].ptes[Tx(v)];
      NoUser(pte);
      Reflag(Now(), d, Dx(v), Tx(v), NotForUsers(pte).flags);
      mem := SetEntry(mem, t, Tx(v), NotForUsers(pte));
      forall w | w != v ensures At(mem, d, w) == old(At(mem, d, w)) {
        Split(v, w);
      }
    }

    /** allocuvm from page `lo` to page `hi`: fresh zero pages, writable by users. It takes one frame a page and one for
        each missing table. The answer of mappages is ignored: when the frames run out at a table, its first page is
        left out (`gap`) and that page's frame is lost. If this is the last page allocuvm still succeeds; otherwise the
        next kalloc fails, and all pages are taken back while the new tables stay. */
    method AllocPages(d: int, lo: int, hi: int) returns (ok: bool, ghost gap: int, ghost lost: set<int>)
      requires Valid() && d in dirs && 0 <= lo <= hi <= NUSERPAGES && Empty(mem, d, lo, hi)
      modifies this
      ensures Valid() && dirs == old(dirs) && OthersSame(old(Now()), Now(), d)
      ensures ok <==> |old(free)| >= old(Frames(mem, d, lo, hi)) || gap == hi - 1
      ensures if gap == -1 then lost == {} && forall a :: lo <= a < hi ==> !Stranded(old(Now()), d, lo, a)
              else lo <= gap < hi && Stranded(old(Now()), d, lo, gap) && lost == {old(free)[|old(free)| - 1]}
      ensures ok ==> Grown(old(mem), mem, d, lo, hi, gap) && OnlyBut(old(owner), owner, d, lost)
      ensures ok ==> if gap == -1 then free == old(free)[old(Frames(mem, d, lo, hi))..] else free == []
      ensures !ok ==> Empty(mem, d, lo, hi) && Outside(old(mem), mem, d, lo, hi) && OnlyTabs(old(owner), owner, d, lost)
    {
      hide Good, SameSpace, OthersSame, Look, Page, Present, Grown, Mapped, Empty, Outside, Cleared, Took, Stranded,
           OnlyBut,
           Frames, Tabs, NoTableSkipped, TablesTo, OnlyTabs, Visited;
      ghost var y0 := Now();
      gap, lost := -1, {};
      GrownNone(mem, d, lo);
      OthersRefl(y0, d);
      TookNone(y0, d, lo);
      NoneLost(owner, d);
      var a := lo;
      while a < hi
        invariant lo <= a <= hi && Valid() && dirs == y0.dirs && OthersSame(y0, Now(), d)
        invariant Grown(y0.mem, mem, d, lo, a, gap) && OnlyBut(y0.owner, owner, d, lost)
        invariant if gap == -1 then lost == {} && Took(y0, Now(), d, lo, a)
                  else gap == a - 1 && Gapped(y0, Now(), d, lo, gap) && lost == Last(y0.free)
      {
        ghost var y := Now();
        GrownAt(y0.mem, mem, d, lo, a, hi, gap);
        var more, mapped, g := NewPage(d, a, ZeroPage(), PTE_W + PTE_U + PTE_P);
        OthersTrans(y0, y, Now(), d);
        if !more {
          RanOut(y0, y, d, lo, a, hi, gap);
          BeforeUndo(y0, y, d, lo, a, hi, gap);
          DeallocPages(d, hi, lo);
          Undone(y0, y, Now(), d, lo, a, hi, gap, lost);
          return false, gap, lost;
        }
        TookOne(y0, y, Now(), d, lo, a, more, mapped);
        OneLost(y0.owner, y.owner, owner, d, lost, g, mapped);
        if mapped {
          GrownNext(y0.mem, y.mem, mem, d, lo, a, Pte(g, PTE_W + PTE_U + PTE_P));
        } else {
          GrownSame(y0.mem, y.mem, mem, d, lo, a, gap);
          SameLooks(y.mem, mem, d);
          gap, lost := a, {g};
          GrownGap(y0.mem, mem, d, lo, a);
        }
        a := a + 1;
      }
      ok := true;
      Reached(y0, Now(), d, lo, hi, gap);
    }

    /** allocuvm, for sizes in bytes: the new size, the old one if that is larger, or 0. */
    method Allocuvm(d: int, oldsz: int, newsz: int) returns (r: int, ghost gap: int, ghost lost: set<int>)
      requires Valid() && d in dirs && 0 <= oldsz <= KERNBASE && 0 <= newsz
      requires oldsz <= newsz < KERNBASE ==> Empty(mem, d, RoundUp(oldsz), RoundUp(newsz))
      modifies this
      ensures Valid() && dirs == old(dirs) && OthersSame(old(Now()), Now(), d)
      ensures newsz >= KERNBASE ==> r == 0 && Now() == old(Now())
      ensures newsz < oldsz && newsz < KERNBASE ==> r == oldsz && Now() == old(Now())
      ensures oldsz <= newsz < KERNBASE ==>
                var lo, hi := RoundUp(oldsz), RoundUp(newsz);
                && lo <= hi
                && (if |old(free)| >= old(Frames(mem, d, lo, hi)) || gap == hi - 1
                    then r == newsz && Grown(old(mem), mem, d, lo, hi, gap) && OnlyBut(old(owner), owner, d, lost)
                         && free == if gap == -1 then old(free)[old(Frames(mem, d, lo, hi))..] else []
                    else r == 0 && Empty(mem, d, lo, hi) && Outside(old(mem), mem, d, lo, hi)
                         && OnlyTabs(old(owner), owner, d, lost))
                && (if gap == -1 then lost == {} && forall a :: lo <= a < hi ==> !Stranded(old(Now()), d, lo, a)
                    else lo <= gap < hi && Stranded(old(Now()), d, lo, gap) && lost == {old(free)[|old(free)| - 1]})
                && (r == newsz && newsz > 0 ==> GrownBytes(old(mem), mem, d, oldsz, newsz, gap))
                && (r == 0 ==> SameBytes(old(mem), mem, d, oldsz, newsz))
    {
      hide Good, OthersSame, Grown, Empty, Outside, OnlyBut, OnlyTabs, Stranded, Frames;
      gap, lost := -1, {};
      OthersRefl(Now(), d);
      if newsz >= KERNBASE {
        return 0, gap, lost;
      }
      if newsz < oldsz {
        return oldsz, gap, lost;
      }
      RoundUpOrder(oldsz, newsz);
      var ok;
      ok, gap, lost := AllocPages(d, RoundUp(oldsz), RoundUp(newsz));
      r := if ok then newsz else 0;
      if ok {
        GrownInBytes(old(mem), mem, d, oldsz, newsz, gap);
      } else {
        OutsideBytes(old(mem), mem, d, oldsz, newsz);
        EmptyBytes(mem, d, oldsz, newsz);
      }
    }

    lemma TableHere(d: int, i: int)
      requires Valid() && d in dirs && Present(Entry(mem, d, i))
      ensures IsTable(mem, Entry(mem, d, i).frame)
      ensures forall j :: 0 <= j < NENTRIES ==> mem[Entry(mem, d, i).frame].ptes[j] == Look(mem, d, i, j)
    {
      assert TabOk(Now(), d, i);
    }

    lemma IsDir(d: int)
      requires Valid() && d in dirs
      ensures IsTable(mem, d) && d in owner && owner[d] == Dir
    {
      assert DirOk(Now(), d);
    }

    lemma Fresh(d: int, t: int)
      requires Valid() && d in dirs && t in owner && owner[t] == Held
      ensures t != d && t in mem
    {
      assert DirOk(Now(), d);
    }
  }

  // ---- sizes in bytes ---------------------------------------------------------------------------------------

  /** User page `v` starts at an address from `lo` up to `hi`. */
  predicate StartsIn(v: int, lo: int, hi: int) {
    0 <= v < NUSERPAGES && lo <= v * PGSIZE < hi
  }

  /** User page `v` has the entry and the bytes that it had. */
  ghost predicate SameAt(m: Mem, m': Mem, d: int, v: int) {
    At(m', d, v) == At(m, d, v) && PageAt(m', d, v) == PageAt(m, d, v)
  }

  /** Every page that starts below `newsz`, and so every page with a byte below it, is as it was, and so is every page
      from `oldsz` on. */
  ghost predicate ShrunkBytes(m: Mem, m': Mem, d: int, newsz: int, oldsz: int) {
    forall v :: 0 <= v < NUSERPAGES && !StartsIn(v, newsz, oldsz) ==> SameAt(m, m', d, v)
  }

  /** Every page that starts from `oldsz` up to `newsz`, except `gap`, is there, zero and open to its user, so that
      every address of the new part is mapped; the other pages are as they were. */
  ghost predicate GrownBytes(m: Mem, m': Mem, d: int, oldsz: int, newsz: int, gap: int) {
    && (forall v :: 0 <= v < NUSERPAGES && !StartsIn(v, oldsz, newsz) ==> SameAt(m, m', d, v))
    && (forall v :: StartsIn(v, oldsz, newsz) && v != gap ==>
          At(m', d, v).flags == 7 && PageAt(m', d, v) == seq(PGSIZE, _ => 0) && Accessible(m', d, v))
    && (forall x :: oldsz <= x < newsz && oldsz <= x / PGSIZE * PGSIZE && x / PGSIZE != gap ==>
          Accessible(m', d, x / PGSIZE))
  }

  /** No page starts in the range, and the others are as they were. */
  ghost predicate SameBytes(m: Mem, m': Mem, d: int, oldsz: int, newsz: int) {
    && (forall v :: 0 <= v < NUSERPAGES && !StartsIn(v, oldsz, newsz) ==> SameAt(m, m', d, v))
    && (forall v :: StartsIn(v, oldsz, newsz) ==> !Present(At(m', d, v)))
  }

  lemma StartsPage(v: int, lo: int, hi: int)
    requires 0 <= v < NUSERPAGES
    ensures 0 <= Dx(v) < NUSER && 0 <= Tx(v) < NENTRIES && Num(Dx(v), Tx(v)) == v
    ensures StartsIn(v, lo, hi) <==> RoundUp(lo) <= v < RoundUp(hi)
  {
    RoundUpBytes(lo, hi, v);
    SplitUser(v);
  }

  lemma OutsideBytes(m: Mem, m': Mem, d: int, lo: int, hi: int)
    requires Outside(m, m', d, RoundUp(lo), RoundUp(hi))
    ensures forall v :: 0 <= v < NUSERPAGES && !StartsIn(v, lo, hi) ==> SameAt(m, m', d, v)
  {
    hide Look, Page, StartsIn, RoundUp, Num, Dx, Tx;
    forall v | 0 <= v < NUSERPAGES && !StartsIn(v, lo, hi) ensures SameAt(m, m', d, v) {
      StartsPage(v, lo, hi);
    }
  }

  lemma EmptyBytes(m: Mem, d: int, lo: int, hi: int)
    requires Empty(m, d, RoundUp(lo), RoundUp(hi))
    ensures forall v :: StartsIn(v, lo, hi) ==> !Present(At(m, d, v))
  {
    hide Look, RoundUp, Num, Dx, Tx;
    forall v | StartsIn(v, lo, hi) ensures !Present(At(m, d, v)) {
      StartsPage(v, lo, hi);
      assert OnPages(Dx(v), Tx(v), Span(RoundUp(lo), RoundUp(hi)));
    }
  }

  lemma GrownInBytes(m: Mem, m': Mem, d: int, lo: int, hi: int, gap: int)
    requires Grown(m, m', d, RoundUp(lo), RoundUp(hi), gap) && 0 <= lo && hi <= KERNBASE
    ensures GrownBytes(m, m', d, lo, hi, gap)
  {
    hide Look, Page, RoundUp, Num, Dx, Tx;
    OutsideBytes(m, m', d, lo, hi);
    forall v | StartsIn(v, lo, hi) && v != gap
      ensures At(m', d, v).flags == 7 && PageAt(m', d, v) == seq(PGSIZE, _ => 0) && Accessible(m', d, v)
    {
      StartsPage(v, lo, hi);
    }
    forall x | lo <= x < hi && lo <= x / PGSIZE * PGSIZE && x / PGSIZE != gap ensures Accessible(m', d, x / PGSIZE) {
      assert StartsIn(x / PGSIZE, lo, hi);
    }
  }

  lemma ClearedEmpty(x: Pool, y: Pool, d: int, lo: int, hi: int)
    requires Cleared(x, y, d, Span(lo, hi))
    ensures Empty(y.mem, d, lo, hi)
  {
    hide Look, OthersSame, Num;
  }

  lemma ClearedBytes(x: Pool, y: Pool, d: int, tabs: set<int>, newsz: int, oldsz: int)
    requires Cleared(x, y, d, Visited(tabs, RoundUp(newsz), RoundUp(oldsz)))
    ensures ShrunkBytes(x.mem, y.mem, d, newsz, oldsz)
  {
    hide Look, Page, RoundUp, Num, Dx, Tx, OthersSame;
    forall v | 0 <= v < NUSERPAGES && !StartsIn(v, newsz, oldsz) ensures SameAt(x.mem, y.mem, d, v) {
      StartsPage(v, newsz, oldsz);
    }
  }

  /** Page `v` is now mapped by `p`, and no other page of `d` changed. */
  ghost predicate Mapped(m: Mem, m': Mem, d: int, v: int, p: Pte) {
    && (forall a, b :: Look(m', d, a, b) == if a == Dx(v) && b == Tx(v) then p else Look(m, d, a, b))
    && (forall a, b :: a < NUSER && !(a == Dx(v) && b == Tx(v)) ==> Page(m', d, a, b) == Page(m, d, a, b))
  }

  /** Flags with the present bit. */
  function Or1(perm: nat): (flags: nat) {
    if perm % 2 == 1 then perm else perm + 1
  }

  lemma Or1Present(f: int, g: int, perm: nat)
    ensures Present(Pte(f, Or1(perm))) && User(Pte(f, Or1(perm))) == User(Pte(g, Or1(perm)))
    ensures Present(Pte(f, perm)) ==> Or1(perm) == perm
  {
  }

  /** Nothing is mapped but kernel pages below page `top`. */
  ghost predicate KernelOnly(m: Mem, d: int, top: int) {
    forall i, j :: Present(Look(m, d, i, j)) ==> NUSER <= i && Num(i, j) < top
  }

  lemma KernelNext(m: Mem, d: int, v: int, p: Pte)
    requires KernelOnly(m, d, v) && NUSERPAGES <= v
    ensures !Present(At(m, d, v)) && Dx(v) >= NUSER
  {
    hide Look, Present;
    assert Dx(v) * NENTRIES + Tx(v) == v;
  }

  lemma KernelMore(m: Mem, d: int, v: int, w: int)
    requires KernelOnly(m, d, v) && v <= w
    ensures KernelOnly(m, d, w)
  {
    hide Look, Present;
  }

  lemma MappedKernel(m: Mem, m': Mem, d: int, v: int, p: Pte)
    requires Mapped(m, m', d, v, p) && NUSERPAGES <= v && KernelOnly(m, d, v)
    ensures KernelOnly(m', d, v + 1) && forall w :: At(m', d, w) == if w == v then p else At(m, d, w)
  {
    hide Look, Present, Page;
    assert Dx(v) * NENTRIES + Tx(v) == v && Dx(v) >= NUSER;
    forall w ensures At(m', d, w) == if w == v then p else At(m, d, w) {
      Split(v, w);
    }
  }

  lemma OthersRefl(y: Pool, d: int)
    ensures OthersSame(y, y, d)
  {
  }

  /** A line of kmap: `n` pages from `v` on go to frames from `f` on. */
  datatype Range = Range(v: int, n: nat, f: int, perm: nat)

  ghost predicate Kernel(kmap: seq<Range>) {
    && (forall k :: 0 <= k < |kmap| ==>
          NUSERPAGES <= kmap[k].v && kmap[k].n > 0 && kmap[k].v + kmap[k].n <= NENTRIES * NENTRIES
          && !User(Pte(kmap[k].f, Or1(kmap[k].perm))))
    && (forall k, l :: 0 <= k < l < |kmap| ==> kmap[k].v + kmap[k].n <= kmap[l].v)
  }

  /** The directory slots that kmap needs tables for. */
  ghost function Slots(kmap: seq<Range>): (ks: set<int>) {
    if kmap == [] then {} else var r := kmap[|kmap| - 1]; Slots(kmap[..|kmap| - 1]) + SlotSet(r.v, r.v + r.n)
  }

  /** The tables of `d` are those that the lines `kmap` need. */
  ghost predicate Tabled(m: Mem, d: int, kmap: seq<Range>) {
    forall k :: Present(Entry(m, d, k)) <==> k in Slots(kmap)
  }

  /** They came from the head of `free`. */
  ghost predicate Lined(free: seq<int>, y: Pool, d: int, kmap: seq<Range>) {
    |Slots(kmap)| <= |free| && y.free == free[|Slots(kmap)|..] && Tabled(y.mem, d, kmap)
  }

  /** Where the first `k` lines of kmap end. */
  function Top(kmap: seq<Range>, k: nat): (v: int)
    requires k <= |kmap|
  {
    if k == 0 then NUSERPAGES else kmap[k - 1].v + kmap[k - 1].n
  }

  lemma LinedEnough(free: seq<int>, y: Pool, d: int, kmap: seq<Range>)
    requires Lined(free, y, d, kmap)
    ensures |free| >= |Slots(kmap)|
  {
  }

  lemma OnlyToSame(o: map<int, Owner>, d: int)
    ensures OnlyTo(o, o, d)
  {
  }

  lemma LinedNone(y: Pool, d: int, kmap: seq<Range>)
    requires forall k :: Entry(y.mem, d, k) == NOPTE
    ensures Lined(y.free, y, d, kmap[..0])
  {
  }

  /** The tables that the next line lacks are those of its slots that no earlier line has. */
  lemma {:induction false} LinedLacking(y: Pool, d: int, kmap: seq<Range>, r: Range)
    requires Tabled(y.mem, d, kmap)
    ensures |Slots(kmap + [r])| == |Slots(kmap)| + |Lacking(y.mem, d, r.v, r.v + r.n)|
    ensures forall m {:trigger Tabled(m, d, kmap + [r])} :: TablesTo(y.mem, m, d, r.v, r.v + r.n) ==>
            Tabled(m, d, kmap + [r])
  {
    hide Entry, Present, Slot, SlotSet, Slots, Lacking;
    var a, b := Slots(kmap), Lacking(y.mem, d, r.v, r.v + r.n);
    SlotsMore(kmap, r);
    LackingSlots(y.mem, d, r.v, r.v + r.n);
    forall k ensures k in a + SlotSet(r.v, r.v + r.n) <==> k in a + b
      ensures !(k in a && k in b)
    {
      assert Present(Entry(y.mem, d, k)) <==> k in a;
    }
    assert a + SlotSet(r.v, r.v + r.n) == a + b && a !! b;
    TabledMore(y.mem, d, kmap, r);
  }

  lemma TabledMore(m: Mem, d: int, kmap: seq<Range>, r: Range)
    requires Tabled(m, d, kmap) && Slots(kmap + [r]) == Slots(kmap) + SlotSet(r.v, r.v + r.n)
    ensures forall m' {:trigger Tabled(m', d, kmap + [r])} ::
              TablesTo(m, m', d, r.v, r.v + r.n) ==> Tabled(m', d, kmap + [r])
  {
    hide Entry, Present, Slot, Slots;
  }

  lemma SlotsMore(kmap: seq<Range>, r: Range)
    ensures Slots(kmap + [r]) == Slots(kmap) + SlotSet(r.v, r.v + r.n)
  {
    hide SlotSet;
    assert (kmap + [r])[..|kmap|] == kmap;
  }

  lemma {:induction false} SlotsUp(kmap: seq<Range>, k: nat)
    requires k <= |kmap|
    ensures |Slots(kmap[..k])| <= |Slots(kmap)|
    decreases |kmap| - k
  {
    if k < |kmap| {
      SlotsUp(kmap, k + 1);
      var a, b := Slots(kmap[..k]), Slots(kmap[..k + 1]);
      assert kmap[..k + 1][..k] == kmap[..k];
      assert b == a + (b - a);
    } else {
      assert kmap[..k] == kmap;
    }
  }

  lemma {:induction false} LinedNext(free: seq<int>, y: Pool, z: Pool, d: int, kmap: seq<Range>, r: Range)
    requires Lined(free, y, d, kmap) && TookTables(y, z, d, r.v, r.v + r.n)
    ensures Lined(free, z, d, kmap + [r])
  {
    hide Lacking, Slots, TablesTo, Tabled;
    LinedLacking(y, d, kmap, r);
    DropTwice(free, |Slots(kmap)|, |Lacking(y.mem, d, r.v, r.v + r.n)|);
  }

  lemma {:induction false} LinedFails(free: seq<int>, y: Pool, d: int, kmap: seq<Range>, k: nat)
    requires k < |kmap| && Lined(free, y, d, kmap[..k])
    requires |y.free| < |Lacking(y.mem, d, kmap[k].v, kmap[k].v + kmap[k].n)|
    ensures |free| < |Slots(kmap)|
  {
    hide Lacking, Slots, TablesTo, Tabled;
    LinedLacking(y, d, kmap[..k], kmap[k]);
    TakeOne(kmap, k);
    SlotsUp(kmap, k + 1);
  }

  lemma TakeOne(kmap: seq<Range>, k: nat)
    requires k < |kmap|
    ensures kmap[..k + 1] == kmap[..k] + [kmap[k]]
  {
  }

  lemma DropTwice(free: seq<int>, a: nat, b: nat)
    requires a + b <= |free|
    ensures free[a..][b..] == free[a + b..]
  {
  }

  lemma EnoughTables(x: Pool, y: Pool, d: int, lo: int, hi: int)
    requires TookTables(x, y, d, lo, hi)
    ensures |x.free| >= |Lacking(x.mem, d, lo, hi)|
  {
  }

  lemma KernelNone(m: Mem, d: int)
    requires forall i, j :: Look(m, d, i, j) == NOPTE
    ensures KernelOnly(m, d, NUSERPAGES)
  {
    hide Look;
  }

  lemma SameAfterOthers(x: Pool, y: Pool, z: Pool, d: int)
    requires SameAll(x, y.mem) && OthersSame(y, z, d) && x.dirs <= y.dirs && d !in x.dirs
    ensures SameAll(x, z.mem)
  {
    hide SameSpace;
    forall e | e in x.dirs ensures SameSpace(x.mem, z.mem, e) {
      SameTrans(x.mem, y.mem, z.mem, e);
    }
  }

  lemma WalkTwice(m: Mem, d: int, i: int, j: int)
    requires Present(Look(m, d, i, j)) && 0 <= i < NENTRIES && 0 <= j < NENTRIES
    ensures IsTable(m, d) && Present(Entry(m, d, i)) && m[d].ptes[i] == Entry(m, d, i)
    ensures var t := Entry(m, d, i).frame; IsTable(m, t) && m[t].ptes[j] == Look(m, d, i, j)
  {
  }

  lemma SameEntries(y: Pool, f: int, d: int)
    requires Good(y) && d in y.dirs && f in y.owner && y.owner[f] == Held
    ensures var m := y.mem[f := Junk]; forall a :: Entry(m, d, a) == Entry(y.mem, d, a)
  {
    assert DirOk(y, d);
  }

  /** A frame that maps one of these user pages. */
  predicate InPages(o: Owner, d: int, ps: set<int>) {
    o.Leaf? && o.d == d && Num(o.i, o.j) in ps
  }

  /** From `x` to `y`, directory `d` lost the pages `gone` and nothing else, and their frames became free. */
  ghost predicate Cleared(x: Pool, y: Pool, d: int, gone: set<int>) {
    && y.dirs == x.dirs && OthersSame(x, y, d)
    && (forall k :: Entry(y.mem, d, k) == Entry(x.mem, d, k))
    && (forall i, j :: !OnPages(i, j, gone) ==>
          Look(y.mem, d, i, j) == Look(x.mem, d, i, j) && (i < NUSER ==> Page(y.mem, d, i, j) == Page(x.mem, d, i, j)))
    && (forall i, j :: OnPages(i, j, gone) ==> !Present(Look(y.mem, d, i, j)))
    && y.owner.Keys == x.owner.Keys
    && (forall f :: f in x.owner ==> y.owner[f] == if InPages(x.owner[f], d, gone) then Free else x.owner[f])
  }

  lemma ClearedNone(y: Pool, d: int)
    ensures Cleared(y, y, d, {})
  {
    hide Look, Page;
    OthersRefl(y, d);
  }

  /** No page between `a` and `b` is mapped. */
  ghost predicate Empty(m: Mem, d: int, a: int, b: int) {
    forall i, j :: OnPages(i, j, Span(a, b)) ==> !Present(Look(m, d, i, j))
  }

  /** Pages that are not mapped can be counted among those that went. */
  lemma ClearedSkip(x: Pool, y: Pool, d: int, gone: set<int>, more: set<int>)
    requires Good(x) && Cleared(x, y, d, gone) && forall i, j :: OnPages(i, j, more) ==> !Present(Look(y.mem, d, i, j))
    ensures Cleared(x, y, d, gone + more)
  {
    hide Look, Page, OthersSame, FreeOk, DirsOk, Num;
    forall f | f in x.owner ensures !InPages(x.owner[f], d, more - gone) {
      assert OwnerOk(x, f);
    }
  }

  lemma OnPage(a: int)
    requires 0 <= a < NUSERPAGES
    ensures forall i, j :: OnPages(i, j, {a}) <==> i == Dx(a) && j == Tx(a)
  {
    SplitUser(a);
    forall i, j ensures OnPages(i, j, {a}) <==> i == Dx(a) && j == Tx(a) {
      if 0 <= j < NENTRIES {
        NumIs(a, i, j);
      }
    }
  }

  lemma NoTableHere(m: Mem, d: int, a: int)
    requires 0 <= a < NUSERPAGES && !Present(Entry(m, d, Dx(a)))
    ensures forall i, j :: OnPages(i, j, {a}) ==> !Present(Look(m, d, i, j))
  {
    OnPage(a);
  }

  /** When the skip passes over no table, what the loop does not look at is not mapped. */
  lemma ClearedRange(x: Pool, y: Pool, d: int, lo: int, hi: int)
    requires Good(x) && Cleared(x, y, d, Visited(Tabs(x.mem, d), lo, hi)) && 0 <= lo <= hi <= NUSERPAGES
    requires NoTableSkipped(Tabs(x.mem, d), lo, hi) || Empty(x.mem, d, lo, hi)
    ensures Cleared(x, y, d, Span(lo, hi))
  {
    hide Good, OthersSame, Page, Visits, NoTableSkipped;
    var tabs := Tabs(x.mem, d);
    var seen := Visited(tabs, lo, hi);
    var more := Span(lo, hi) - seen;
    forall i, j | OnPages(i, j, more) ensures !Present(Look(y.mem, d, i, j)) {
      Unseen(x.mem, d, lo, hi, i, j);
      assert !OnPages(i, j, seen);
    }
    hide Look, Tabs;
    ClearedSkip(x, y, d, seen, more);
    assert seen + more == Span(lo, hi);
  }

  lemma Unseen(m: Mem, d: int, lo: int, hi: int, i: int, j: int)
    requires 0 <= lo <= hi <= NUSERPAGES && OnPages(i, j, Span(lo, hi)) && !Visits(Tabs(m, d), lo, hi, Num(i, j))
    requires NoTableSkipped(Tabs(m, d), lo, hi) || Empty(m, d, lo, hi)
    ensures !Present(Look(m, d, i, j))
  {
    hide Visits;
    if NoTableSkipped(Tabs(m, d), lo, hi) && Present(Entry(m, d, i)) {
      NumIs(Num(i, j), i, j);
      VisitsAll(Tabs(m, d), lo, hi, Num(i, j));
    }
  }

  lemma OneFrame(x: Pool, f: int, g: int)
    requires OwnersOk(x) && f in x.owner && g in x.owner && x.owner[f] == x.owner[g] && x.owner[f].Leaf?
    ensures f == g
  {
    hide Look;
    assert OwnerOk(x, f) && OwnerOk(x, g);
  }

  lemma ClearedNext(x: Pool, y: Pool, y': Pool, d: int, gone: set<int>, a: int)
    requires Good(x) && Cleared(x, y, d, gone) && 0 <= a < NUSERPAGES
    requires y'.dirs == y.dirs && OthersSame(y, y', d) && Mapped(y.mem, y'.mem, d, a, NOPTE)
    requires forall k :: Entry(y'.mem, d, k) == Entry(y.mem, d, k)
    requires exists f :: f in y.owner && y.owner[f] == Leaf(d, Dx(a), Tx(a)) && y'.owner == y.owner[f := Free]
    ensures Cleared(x, y', d, gone + {a})
  {
    hide Look, Page, OthersSame, Good, Num, Dx, Tx;
    OthersTrans(x, y, y', d);
    var f :| f in y.owner && y.owner[f] == Leaf(d, Dx(a), Tx(a)) && y'.owner == y.owner[f := Free];
    GoodOwners(x);
    SplitUser(a);
    NumIs(a, Dx(a), Tx(a));
    assert x.owner[f] == Leaf(d, Dx(a), Tx(a));
    forall g | g in x.owner ensures y'.owner[g] == if InPages(x.owner[g], d, gone + {a}) then Free else x.owner[g] {
      if InPages(x.owner[g], d, {a}) {
        OwnerRange(x, g);
        NumIs(a, x.owner[g].i, x.owner[g].j);
        OneFrame(x, f, g);
      }
    }
    OnPage(a);
    forall i, j ensures OnPages(i, j, gone + {a}) <==> OnPages(i, j, gone) || (i == Dx(a) && j == Tx(a)) {
      assert OnPages(i, j, gone + {a}) <==> OnPages(i, j, gone) || OnPages(i, j, {a});
    }
  }

  lemma GoodOwners(x: Pool)
    requires Good(x)
    ensures OwnersOk(x)
  {
  }

  lemma OwnerRange(x: Pool, g: int)
    requires OwnersOk(x) && g in x.owner && x.owner[g].Leaf?
    ensures 0 <= x.owner[g].j < NENTRIES
  {
    hide Look;
    assert OwnerOk(x, g);
  }

  /** The frames of a process. */
  predicate Belongs(o: Owner, f: int, d: int) {
    OfDir(o, f, d) || (o.Leaf? && o.d == d)
  }

  /** Owners while freevm's loop has reached slot `i`. */
  function Giving(o: Owner, f: int, d: int, i: int): (r: Owner) {
    if o.Tab? && o.d == d && o.i < i then Free else if OfDir(o, f, d) then Held else o
  }

  ghost predicate SameBut(y: Pool, m: Mem, d: int) {
    forall e :: e in y.dirs && e != d ==> SameSpace(y.mem, m, e)
  }

  lemma SameButRefl(y: Pool, d: int)
    ensures SameBut(y, y.mem, d)
  {
  }

  lemma SameButStep(y: Pool, z: Pool, m: Mem, d: int)
    requires SameBut(y, z.mem, d) && SameAll(z, m) && z.dirs == y.dirs - {d}
    ensures SameBut(y, m, d)
  {
    hide SameSpace;
    forall e | e in y.dirs && e != d ensures SameSpace(y.mem, m, e) {
      SameTrans(y.mem, z.mem, m, e);
    }
  }

  lemma SameButMore(x: Pool, y: Pool, y1: Pool, z: Pool, d: int)
    requires OthersSame(x, y, d) && SameBut(y, y1.mem, d) && SameAll(y1, z.mem) && y1.dirs == y.dirs - {d}
             && x.dirs == y.dirs
    ensures SameBut(x, z.mem, d)
  {
    hide SameSpace;
    forall e | e in x.dirs && e != d ensures SameSpace(x.mem, z.mem, e) {
      SameTrans(x.mem, y.mem, y1.mem, e);
      SameTrans(x.mem, y1.mem, z.mem, e);
    }
  }

  lemma GivingNone(y: Pool, d: int)
    requires Good(y)
    ensures forall f :: f in y.owner ==> Retired(y, d).owner[f] == Giving(y.owner[f], f, d, 0)
  {
    hide Look;
    forall f | f in y.owner ensures y.owner[f].Tab? ==> y.owner[f].i >= 0 {
      assert OwnerOk(y, f);
    }
  }

  /** Slot `i` of the directory: its table is the one frame whose owner says so. */
  lemma TableOwned(y: Pool, d: int, i: int)
    requires Good(y) && d in y.dirs && 0 <= i < NENTRIES
    ensures IsTable(y.mem, d) && y.mem[d].ptes[i] == Entry(y.mem, d, i)
    ensures Present(Entry(y.mem, d, i)) ==>
              Entry(y.mem, d, i).frame in y.owner && y.owner[Entry(y.mem, d, i).frame] == Tab(d, i)
                  && Entry(y.mem, d, i).frame != d
    ensures forall f :: f in y.owner && y.owner[f] == Tab(d, i) ==>
            Present(Entry(y.mem, d, i))
            && f == Entry(y.mem, d, i).frame
  {
    hide Look;
    assert DirOk(y, d);
    assert Present(Entry(y.mem, d, i)) ==> TabOk(y, d, i);
    forall f | f in y.owner && y.owner[f] == Tab(d, i)
        ensures Present(Entry(y.mem, d, i)) && f == Entry(y.mem, d, i).frame {
      assert OwnerOk(y, f);
    }
  }

  lemma ClearedAll(x: Pool, y: Pool, d: int)
    requires Cleared(x, y, d, Span(0, NUSERPAGES))
    ensures forall i, j :: i < NUSER ==> !Present(Look(y.mem, d, i, j))
    ensures y.dirs == x.dirs && OthersSame(x, y, d) && y.owner.Keys == x.owner.Keys
    ensures forall f :: f in x.owner ==>
            y.owner[f] == if InPages(x.owner[f], d, Span(0, NUSERPAGES)) then Free else x.owner[f]
  {
    hide OthersSame;
    forall i, j | i < NUSER ensures !Present(Look(y.mem, d, i, j)) {
      if 0 <= i && 0 <= j < NENTRIES {
        assert OnPages(i, j, Span(0, NUSERPAGES));
      }
    }
  }

  lemma DirKept(y: Pool, d: int)
    requires Good(y) && d in y.dirs
    ensures DirOk(y, d)
  {
  }

  lemma Given(x: Pool, y: Pool, d: int)
    requires Good(x) && Good(y) && d in x.dirs && y.owner.Keys == x.owner.Keys
    requires forall f :: f in x.owner ==>
             y.owner[f] == if InPages(x.owner[f], d, Span(0, NUSERPAGES)) then Free else x.owner[f]
    ensures forall f :: f in x.owner ==>
              (if f == d then Free else Giving(y.owner[f], f, d, NENTRIES)) ==
              if Belongs(x.owner[f], f, d) then Free else x.owner[f]
  {
    hide Look;
    assert DirOk(x, d);
    forall f | f in x.owner
      ensures (if f == d then Free else Giving(y.owner[f], f, d, NENTRIES)) ==
              if Belongs(x.owner[f], f, d) then Free else x.owner[f]
    {
      assert OwnerOk(x, f);
    }
  }

  /** The only frames that changed hands went from nobody to process `d`. */
  ghost predicate OnlyTo(o: map<int, Owner>, o': map<int, Owner>, d: int) {
    && o'.Keys == o.Keys
    && forall f :: f in o ==> o'[f] == o[f] || (o[f] == Free && Belongs(o'[f], f, d) && !o'[f].Free? && !o'[f].Held?)
  }

  lemma OnlyToTrans(o: map<int, Owner>, o1: map<int, Owner>, o2: map<int, Owner>, d: int)
    requires OnlyTo(o, o1, d) && OnlyTo(o1, o2, d)
    ensures OnlyTo(o, o2, d)
  {
  }

  /** The child `d` has the first `k` pages of the parent, with equal flags, and no other user page. */
  ghost predicate Copied(m0: Mem, m: Mem, parent: int, d: int, k: int) {
    forall i, j :: 0 <= i < NUSER && 0 <= j < NENTRIES ==>
      if Num(i, j) < k then
        && Present(Look(m, d, i, j)) && Look(m, d, i, j).flags == Look(m0, parent, i, j).flags
        && Page(m, d, i, j) == Page(m0, parent, i, j)
      else !Present(Look(m, d, i, j))
  }

  lemma CopiedNone(m0: Mem, m: Mem, parent: int, d: int)
    requires KernelOnly(m, d, NENTRIES * NENTRIES)
    ensures Copied(m0, m, parent, d, 0)
  {
    hide Look, Page, Present;
  }

  lemma NotYet(m0: Mem, m: Mem, parent: int, d: int, v: int)
    requires Copied(m0, m, parent, d, v) && 0 <= v < NUSERPAGES
    ensures !Present(At(m, d, v))
  {
    hide Look, Page, Present;
    SplitUser(v);
    NumIs(v, Dx(v), Tx(v));
  }

  lemma CopiedNext(m0: Mem, m: Mem, m': Mem, parent: int, d: int, v: int, p: Pte)
    requires Copied(m0, m, parent, d, v) && 0 <= v < NUSERPAGES && Mapped(m, m', d, v, p) && Present(p)
    requires p.flags == At(m0, parent, v).flags && PageAt(m', d, v) == PageAt(m0, parent, v)
    ensures Copied(m0, m', parent, d, v + 1)
  {
    hide Look, Page, Present, Dx, Tx;
    forall i, j | 0 <= i < NUSER && 0 <= j < NENTRIES
      ensures if Num(i, j) < v + 1 then
                && Present(Look(m', d, i, j)) && Look(m', d, i, j).flags == Look(m0, parent, i, j).flags
                && Page(m', d, i, j) == Page(m0, parent, i, j)
              else !Present(Look(m', d, i, j))
    {
      NumIs(v, i, j);
    }
  }

  /** With `r` frames, a copy of `n` pages runs out of them at the table of page 1024 m. */
  predicate CopyStrands(r: int, n: int, m: nat) {
    NENTRIES * m < n && r == (NENTRIES + 1) * m + 1
  }

  ghost predicate CopyLoses(r: int, n: int) {
    exists m: nat :: CopyStrands(r, n, m)
  }

  lemma NoStrands(r: int, n: int)
    requires r < 0
    ensures !CopyLoses(r, n)
  {
  }

  lemma {:induction false} KernelSlots(kmap: seq<Range>)
    requires Kernel(kmap)
    ensures forall k :: k in Slots(kmap) ==> k >= NUSER
  {
    hide User;
    if kmap != [] {
      KernelSlots(kmap[..|kmap| - 1]);
    }
  }

  lemma BareDir(kmap: seq<Range>, m: Mem, d: int)
    requires Kernel(kmap) && Tabled(m, d, kmap)
    ensures forall k :: 0 <= k < NUSER ==> !Present(Entry(m, d, k))
  {
    hide Entry, Present, Slots, Kernel;
    KernelSlots(kmap);
  }

  /** How a copy into a directory without user tables ends at page `v`. */
  lemma CopyEnds(y: Pool, d: int, v: int, n: int, none: bool)
    requires 0 <= v < n <= NUSERPAGES && forall k :: 0 <= k < NUSER ==> !Present(Entry(y.mem, d, k))
    requires if none then |y.free| == Frames(y.mem, d, 0, v) else Stranded(y, d, 0, v)
    ensures |y.free| < n + (n + (NENTRIES - 1)) / NENTRIES
    ensures none <==> !CopyLoses(|y.free|, n)
    ensures !none ==> y.free != []
  {
    hide Frames, Entry, Present, NewTable;
    FramesBare(y.mem, d, v);
    FramesBare(y.mem, d, n);
    if none {
      FramesUp(y.mem, d, 0, v, n);
      forall m: nat ensures !CopyStrands(|y.free|, n, m) {
        if v > NENTRIES * m {
          assert (v + (NENTRIES - 1)) / NENTRIES >= m + 1;
        }
      }
    } else {
      StrandedAt(y, d, 0, v, n);
      assert CopyStrands(|y.free|, n, v / NENTRIES);
    }
  }

  lemma CopyFits(y: Pool, z: Pool, d: int, n: int)
    requires 0 <= n <= NUSERPAGES && (forall k :: 0 <= k < NUSER ==> !Present(Entry(y.mem, d, k)))
             && Took(y, z, d, 0, n)
    ensures |y.free| >= n + (n + (NENTRIES - 1)) / NENTRIES
    ensures !CopyLoses(|y.free|, n)
  {
    hide Frames, Entry, Present, TablesTo;
    FramesBare(y.mem, d, n);
    forall m: nat ensures !CopyStrands(|y.free|, n, m) {
      if n > NENTRIES * m {
        assert (n + (NENTRIES - 1)) / NENTRIES >= m + 1;
      }
    }
  }

  /** A mapped user page can be read through its frame. */
  lemma PageRead(y: Pool, d: int, v: int)
    requires Good(y) && d in y.dirs && 0 <= v < NUSERPAGES && Present(At(y.mem, d, v))
    ensures IsData(y.mem, At(y.mem, d, v).frame) && y.mem[At(y.mem, d, v).frame].bytes == PageAt(y.mem, d, v)
  {
    SplitUser(v);
    assert LeafOk(y, d, Dx(v), Tx(v));
  }

  /** As OnlyTo, but the frames in `lost` belong to nobody any more. */
  ghost predicate OnlyBut(o: map<int, Owner>, o': map<int, Owner>, d: int, lost: set<int>) {
    && o'.Keys == o.Keys
    && forall f :: f in o ==>
         if f in lost then o'[f] == Held && o[f] == Free
         else o'[f] == o[f] || (o[f] == Free && Belongs(o'[f], f, d) && !o'[f].Free? && !o'[f].Held?)
  }

  lemma NoneLost(o: map<int, Owner>, d: int)
    ensures OnlyBut(o, o, d, {})
  {
  }

  lemma OneLost(o: map<int, Owner>, o1: map<int, Owner>, o2: map<int, Owner>, d: int, lost: set<int>, g: int,
                mapped: bool)
    requires OnlyBut(o, o1, d, lost) && g in o1 && o1[g] == Free
    requires if mapped then OnlyTo(o1, o2, d) else lost == {} && o2 == o1[g := Held]
    ensures OnlyBut(o, o2, d, if mapped then lost else {g})
  {
  }

  /** The only frames that changed hands went from nobody to tables of `d`, and those in `lost` to nobody at all. */
  ghost predicate OnlyTabs(o: map<int, Owner>, o': map<int, Owner>, d: int, lost: set<int>) {
    && o'.Keys == o.Keys
    && forall f :: f in o ==>
         if f in lost then o'[f] == Held && o[f] == Free
         else o'[f] == o[f] || (o[f] == Free && o'[f].Tab? && o'[f].d == d)
  }

  lemma OnlyBut0(o: map<int, Owner>, o': map<int, Owner>, d: int)
    requires OnlyTo(o, o', d)
    ensures OnlyBut(o, o', d, {})
  {
  }

  lemma WasFree(o: map<int, Owner>, o1: map<int, Owner>, g: int, d: int)
    requires OnlyTo(o, o1, d) && g in o1 && o1[g] == Free
    ensures g in o && o[g] == Free
  {
  }

  lemma OnlyButOne(o: map<int, Owner>, o1: map<int, Owner>, o2: map<int, Owner>, d: int, g: int)
    requires OnlyTo(o, o1, d) && g in o && o[g] == Free && g in o1 && o2 == o1[g := Held]
    ensures OnlyBut(o, o2, d, {g})
  {
  }

  /** Everything that went to `d` comes back when `d` is freed. */
  lemma BackAgain(y0: Pool, o1: map<int, Owner>, o2: map<int, Owner>, d: int, lost: set<int>)
    requires OnlyBut(y0.owner, o1, d, lost) && o2.Keys == o1.Keys && Good(y0) && d !in y0.dirs && d in o1
             && o1[d] == Dir
    requires forall f :: f in o1 ==> o2[f] == if Belongs(o1[f], f, d) then Free else o1[f]
    ensures o2.Keys == y0.owner.Keys && forall f :: f in y0.owner ==> o2[f] == if f in lost then Held else y0.owner[f]
  {
    hide Look, FreeOk, DirsOk;
    forall f | f in y0.owner ensures o2[f] == if f in lost then Held else y0.owner[f] {
      assert OwnerOk(y0, f);
    }
  }

  lemma SameAfterFree(x: Pool, y: Pool, m: Mem, d: int)
    requires SameAll(x, y.mem) && SameBut(y, m, d) && x.dirs <= y.dirs && d !in x.dirs
    ensures SameAll(x, m)
  {
    hide SameSpace;
    forall e | e in x.dirs ensures SameSpace(x.mem, m, e) {
      SameTrans(x.mem, y.mem, m, e);
    }
  }

  /** The page is present and open to users: bits 0 and 2 of its entry are set. */
  ghost predicate Accessible(m: Mem, d: int, v: int) {
    At(m, d, v).flags % 2 == 1 && At(m, d, v).flags / 4 % 2 == 1
  }

  /** A page at address `base` after `s` was written at address `va`. */
  ghost function Overlay(b: seq<int>, base: int, va: int, s: seq<int>): (r: seq<int>) {
    seq(|b|, o requires 0 <= o < |b| => if va <= base + o < va + |s| then s[base + o - va] else b[o])
  }

  /** The mappings of `d` are the same, and its user memory is the old one with `s` written at `va`. */
  ghost predicate Written(m: Mem, m': Mem, d: int, va: int, s: seq<int>) {
    && (forall i, j :: Look(m', d, i, j) == Look(m, d, i, j))
    && (forall i, j :: 0 <= i < NUSER && 0 <= j < NENTRIES ==>
          Page(m', d, i, j) == Overlay(Page(m, d, i, j), (Num(i, j)) * PGSIZE, va, s))
  }

  lemma WrittenNone(m: Mem, d: int, va: int, src: seq<int>)
    ensures Written(m, m, d, va, src[..0])
  {
    hide Look, Page;
    forall i, j | 0 <= i < NUSER && 0 <= j < NENTRIES
      ensures Page(m, d, i, j) == Overlay(Page(m, d, i, j), (Num(i, j)) * PGSIZE, va, src[..0])
    {
      assert Overlay(Page(m, d, i, j), (Num(i, j)) * PGSIZE, va, src[..0]) == Page(m, d, i, j);
    }
  }

  lemma WrittenLooks(m: Mem, m': Mem, d: int, va: int, s: seq<int>, v: int)
    requires Written(m, m', d, va, s)
    ensures Accessible(m', d, v) <==> Accessible(m, d, v)
  {
    hide Look, Page;
  }

  lemma PageRange(x: int)
    requires 0 <= x < NENTRIES * NENTRIES * PGSIZE
    ensures 0 <= x / PGSIZE < NENTRIES * NENTRIES
  {
  }

  lemma UserPage(y: Pool, d: int, v: int)
    requires Good(y) && d in y.dirs && 0 <= v && Accessible(y.mem, d, v)
    ensures v < NUSERPAGES && Present(At(y.mem, d, v))
  {
    assert LeafOk(y, d, Dx(v), Tx(v));
  }

  lemma DataEntries(y: Pool, f: int, bytes: seq<int>, d: int)
    requires Good(y) && d in y.dirs && IsData(y.mem, f)
    ensures var m := y.mem[f := Data(bytes)]; forall i :: Entry(m, d, i) == Entry(y.mem, d, i)
  {
    assert DirOk(y, d);
  }

  lemma SamePage(x: int, n: nat)
    requires 0 <= x && x % PGSIZE + n <= PGSIZE
    ensures forall z :: x <= z < x + n ==> z / PGSIZE == x / PGSIZE
    ensures n > 0 && x % PGSIZE + n == PGSIZE ==> (x + n) % PGSIZE == 0
  {
  }

  lemma WrittenNext(m0: Mem, m: Mem, m': Mem, d: int, va: int, src: seq<int>, done: nat, n: nat, v: int,
                    bytes: seq<int>)
    requires 0 <= v < NUSERPAGES && done + n <= |src| && Written(m0, m, d, va, src[..done])
    requires v * PGSIZE <= va + done && va + done + n <= (v + 1) * PGSIZE && |PageAt(m, d, v)| == PGSIZE
    requires forall i, j :: Look(m', d, i, j) == Look(m, d, i, j)
    requires forall i, j :: i < NUSER ==> Page(m', d, i, j) == if i == Dx(v)
             && j == Tx(v) then bytes else Page(m, d, i, j)
    requires var c, off := PageAt(m, d, v), va + done - v * PGSIZE;
             bytes == c[..off] + src[done..done + n] + c[off + n..]
    ensures Written(m0, m', d, va, src[..done + n])
  {
    hide Look, Page, Dx, Tx, Overlay;
    forall i, j | 0 <= i < NUSER && 0 <= j < NENTRIES
      ensures Page(m', d, i, j) == Overlay(Page(m0, d, i, j), (Num(i, j)) * PGSIZE, va, src[..done + n])
    {
      NumIs(v, i, j);
      OverlayPage(Page(m0, d, i, j), Page(m, d, i, j), Num(i, j), v, va, src, done, n);
    }
  }

  /** A page before and after the bytes from `done` to `done + n`, which fall into page `v`. */
  lemma OverlayPage(b: seq<int>, c: seq<int>, w: int, v: int, va: int, src: seq<int>, done: nat, n: nat)
    requires (|b| == PGSIZE || b == []) && done + n <= |src| && c == Overlay(b, w * PGSIZE, va, src[..done])
    requires v * PGSIZE <= va + done && va + done + n <= (v + 1) * PGSIZE && (w == v ==> |c| == PGSIZE)
    ensures var off := va + done - v * PGSIZE;
            Overlay(b, w * PGSIZE, va, src[..done + n]) ==
            if w == v then c[..off] + src[done..done + n] + c[off + n..] else c
  {
    if w == v {
      assert |c| == |b|;
      OverlayChunk(b, v * PGSIZE, va, src, done, n);
    } else {
      assert w * PGSIZE + PGSIZE <= v * PGSIZE || (v + 1) * PGSIZE <= w * PGSIZE;
      OverlayElsewhere(b, w * PGSIZE, va, src, done, n);
    }
  }

  /** Bytes `done` to `done + n` of `src` fall into one page. */
  lemma OverlayChunk(b: seq<int>, base: int, va: int, src: seq<int>, done: nat, n: nat)
    requires |b| == PGSIZE && done + n <= |src| && base <= va + done && va + done + n <= base + PGSIZE
    ensures var off := va + done - base;
            var c := Overlay(b, base, va, src[..done]);
            c[..off] + src[done..done + n] + c[off + n..] == Overlay(b, base, va, src[..done + n])
  {
  }

  lemma OverlayElsewhere(b: seq<int>, base: int, va: int, src: seq<int>, done: nat, n: nat)
    requires |b| <= PGSIZE && done + n <= |src| && (base + PGSIZE <= va + done || va + done + n <= base)
    ensures Overlay(b, base, va, src[..done]) == Overlay(b, base, va, src[..done + n])
  {
  }

  /** The entry without PTE_U; all other bits stay. */
  function NotForUsers(p: Pte): (r: Pte) {
    Pte(p.frame, if User(p) then p.flags - PTE_U else p.flags)
  }

  /** Clearing bit 2 changes no other bit. */
  lemma NoUser(p: Pte)
    ensures var r := NotForUsers(p);
            && !User(r) && (Present(r) <==> Present(p))
            && r.flags % 4 == p.flags % 4 && r.flags / 8 == p.flags / 8
  {
    var q, bit, low := p.flags / 8, p.flags / 4 % 2, p.flags % 4;
    assert p.flags == 8 * q + 4 * bit + low;
    Bits(q, bit, low);
    Bits(q, 0, low);
  }

  /** The parts of `8 * q + 4 * bit + low`. */
  lemma Bits(q: nat, bit: nat, low: nat)
    requires bit <= 1 && low < 4
    ensures var f := 8 * q + 4 * bit + low; f / 8 == q && f / 4 == 2 * q + bit && f % 4 == low && f % 2 == low % 2
  {
    Eighths(q, 4 * bit + low);
    Quarters(2 * q + bit, low);
    Halves(4 * q + 2 * bit, low);
  }

  lemma Eighths(q: nat, r: nat)
    requires r < 8
    ensures (8 * q + r) / 8 == q
  {
  }

  lemma Quarters(q: nat, r: nat)
    requires r < 4
    ensures (4 * q + r) / 4 == q && (4 * q + r) % 4 == r
  {
  }

  lemma Halves(q: nat, r: nat)
    ensures (2 * q + r) % 2 == r % 2
  {
  }

  /** Pages outside `lo` to `hi` are as they were. */
  ghost predicate Outside(m: Mem, m': Mem, d: int, lo: int, hi: int) {
    forall i, j :: !(0 <= i < NUSER && 0 <= j < NENTRIES && lo <= Num(i, j) < hi) ==>
      Look(m', d, i, j) == Look(m, d, i, j) && (i < NUSER ==> Page(m', d, i, j) == Page(m, d, i, j))
  }

  /** Pages `lo` to `hi`, except `gap`, are mapped, zero, writable and open to users; the others are as they were. */
  ghost predicate Grown(m: Mem, m': Mem, d: int, lo: int, hi: int, gap: int) {
    && Outside(m, m', d, lo, hi)
    && forall i, j :: 0 <= i < NUSER && 0 <= j < NENTRIES && lo <= Num(i, j) < hi ==>
         if Num(i, j) == gap then !Present(Look(m', d, i, j))
         else Look(m', d, i, j).flags == PTE_W + PTE_U + PTE_P && Page(m', d, i, j) == ZeroPage()
  }

  lemma GrownNone(m: Mem, d: int, lo: int)
    ensures Grown(m, m, d, lo, lo, -1)
  {
    hide Look, Page;
  }

  lemma GrownSame(m: Mem, m1: Mem, m2: Mem, d: int, lo: int, a: int, gap: int)
    requires Grown(m, m1, d, lo, a, gap) && SameSpace(m1, m2, d)
    ensures Grown(m, m2, d, lo, a, gap)
  {
    hide Look, Page;
  }

  lemma GrownAt(m: Mem, m': Mem, d: int, lo: int, a: int, hi: int, gap: int)
    requires Grown(m, m', d, lo, a, gap) && Empty(m, d, lo, hi) && 0 <= lo <= a < hi <= NUSERPAGES
    ensures !Present(At(m', d, a))
  {
    hide Look, Page;
    SplitUser(a);
    NumIs(a, Dx(a), Tx(a));
  }

  lemma GrownNext(m: Mem, m1: Mem, m2: Mem, d: int, lo: int, a: int, p: Pte)
    requires Grown(m, m1, d, lo, a, -1) && Mapped(m1, m2, d, a, p) && 0 <= lo <= a < NUSERPAGES
    requires p.flags == PTE_W + PTE_U + PTE_P && PageAt(m2, d, a) == ZeroPage()
    ensures Grown(m, m2, d, lo, a + 1, -1)
  {
    hide Look, Page, Dx, Tx, ZeroPage;
    SplitUser(a);
    NumIs(a, Dx(a), Tx(a));
    forall i, j | 0 <= i < NUSER && 0 <= j < NENTRIES && lo <= Num(i, j) < a + 1
      ensures Look(m2, d, i, j).flags == PTE_W + PTE_U + PTE_P && Page(m2, d, i, j) == ZeroPage()
    {
      NumIs(a, i, j);
    }
  }

  lemma GrownGap(m: Mem, m': Mem, d: int, lo: int, a: int)
    requires Grown(m, m', d, lo, a, -1) && !Present(At(m', d, a)) && 0 <= lo <= a < NUSERPAGES
    ensures Grown(m, m', d, lo, a + 1, a)
  {
    hide Look, Page, Dx, Tx, ZeroPage;
    SplitUser(a);
    NumIs(a, Dx(a), Tx(a));
    forall i, j | 0 <= i < NUSER && 0 <= j < NENTRIES && Num(i, j) == a ensures !Present(Look(m', d, i, j)) {
      NumIs(a, i, j);
    }
  }

  lemma ScratchEntries(y: Pool, g: int, c: Frame, d: int)
    requires Good(y) && d in y.dirs && g in y.owner && y.owner[g] == Held
    ensures forall k :: Entry(y.mem[g := c], d, k) == Entry(y.mem, d, k)
  {
    assert DirOk(y, d);
  }

  lemma OddPresent(g: int, flags: nat)
    requires flags % 2 == 1
    ensures Present(Pte(g, flags))
  {
  }

  lemma IsPresent(p: Pte)
    ensures Present(p) <==> p.flags % 2 == 1
  {
  }

  /** Frames that a new page takes. */
  ghost function Need(m: Mem, d: int, v: int): (n: nat) {
    if Present(Entry(m, d, Dx(v))) then 1 else 2
  }

  /** What one NewPage does to the frames taken so far. */
  lemma TookOne(x: Pool, y: Pool, z: Pool, d: int, lo: int, a: int, got: bool, mapped: bool)
    requires Took(x, y, d, lo, a) && (got <==> y.free != []) && (mapped <==> |y.free| >= Need(y.mem, d, a))
    requires mapped ==>
               && z.free == y.free[Need(y.mem, d, a)..]
               && (forall k :: Present(Entry(z.mem, d, k)) <==> Present(Entry(y.mem, d, k)) || k == Dx(a))
    requires got && !mapped ==> z.free == [] && forall k :: Entry(z.mem, d, k) == Entry(y.mem, d, k)
    ensures mapped ==> Took(x, z, d, lo, a + 1)
    ensures got && !mapped ==> Gapped(x, z, d, lo, a) && x.free != [] && y.free == [x.free[|x.free| - 1]]
    ensures !got ==> |x.free| == Frames(x.mem, d, lo, a)
  {
    hide Entry, Present, NewTable, Lacking;
    NextTable(x.mem, y.mem, d, lo, a);
    if mapped {
      TookNext(x, y, z, d, lo, a);
    }
  }

  /** The frame at the end of the free list. */
  function Last(free: seq<int>): (fs: set<int>) {
    if free == [] then {} else {free[|free| - 1]}
  }

  /** Page `a` was left out for want of a table, and nothing is free any more. */
  ghost predicate Gapped(x: Pool, z: Pool, d: int, lo: int, a: int) {
    Stranded(x, d, lo, a) && z.free == [] && TablesTo(x.mem, z.mem, d, lo, a)
  }

  lemma OthersMem(x: Pool, y: Pool, y1: Pool, d: int)
    requires OthersSame(x, y, d) && y1.mem == y.mem && y1.dirs == y.dirs
    ensures OthersSame(x, y1, d)
  {
  }

  /** The frames ran out before page `hi`. */
  lemma RanOut(x: Pool, y: Pool, d: int, lo: int, a: int, hi: int, gap: int)
    requires lo <= a < hi && y.free == []
    requires if gap == -1 then Took(x, y, d, lo, a) else gap == a - 1 && Gapped(x, y, d, lo, gap)
    ensures |x.free| < Frames(x.mem, d, lo, hi)
    ensures if gap == -1 then forall b :: lo <= b ==> !Stranded(x, d, lo, b)
            else lo <= gap && Stranded(x, d, lo, gap) && x.free != []
  {
    hide Frames, TablesTo, NewTable;
    if gap == -1 {
      Exhausted(x, y, d, lo, a);
      FramesUp(x.mem, d, lo, a, hi);
      forall b | lo <= b ensures !Stranded(x, d, lo, b) {
        if Stranded(x, d, lo, b) {
          StrandedAt(x, d, lo, b, a);
        }
      }
    } else {
      StrandedAt(x, d, lo, gap, hi);
    }
  }

  lemma Exhausted(x: Pool, y: Pool, d: int, lo: int, a: int)
    requires Took(x, y, d, lo, a) && y.free == []
    ensures |x.free| == Frames(x.mem, d, lo, a)
  {
  }

  /** All pages up to `hi` were dealt with. */
  lemma Reached(x: Pool, y: Pool, d: int, lo: int, hi: int, gap: int)
    requires lo <= hi && (if gap == -1 then Took(x, y, d, lo, hi) else gap == hi - 1 && Gapped(x, y, d, lo, gap))
    ensures gap == -1 ==>
              && |x.free| >= Frames(x.mem, d, lo, hi) && y.free == x.free[Frames(x.mem, d, lo, hi)..]
              && forall b :: lo <= b < hi ==> !Stranded(x, d, lo, b)
    ensures gap != -1 ==> lo <= gap && Stranded(x, d, lo, gap) && x.free != [] && y.free == []
  {
    hide Frames, TablesTo, NewTable;
    if gap == -1 {
      forall b | lo <= b < hi ensures !Stranded(x, d, lo, b) {
        if Stranded(x, d, lo, b) {
          StrandedAt(x, d, lo, b, hi);
        }
      }
    }
  }

  /** deallocuvm will find every page: its skip passes over no table, or nothing was mapped. */
  lemma BeforeUndo(x: Pool, y: Pool, d: int, lo: int, a: int, hi: int, gap: int)
    requires Grown(x.mem, y.mem, d, lo, a, gap) && Empty(x.mem, d, lo, hi) && 0 <= lo <= a <= hi <= NUSERPAGES
    requires if gap == -1 then Took(x, y, d, lo, a) else gap == a - 1 && Gapped(x, y, d, lo, gap)
    ensures NoTableSkipped(Tabs(y.mem, d), lo, hi) || Empty(y.mem, d, lo, hi)
  {
    var top := if gap == -1 then a else gap;
    assert TablesTo(x.mem, y.mem, d, lo, top);
    if lo < top {
      FirstTable(x.mem, y.mem, d, lo, top);
    } else {
      GrownEmpty(x.mem, y.mem, d, lo, a, hi, gap);
    }
  }

  lemma FirstTable(m: Mem, m': Mem, d: int, lo: int, top: int)
    requires TablesTo(m, m', d, lo, top) && 0 <= lo < top <= NUSERPAGES
    ensures Dx(lo) in Tabs(m', d)
  {
    hide Entry, Present;
    SplitUser(lo);
    assert Slot(lo, top, Dx(lo));
  }

  lemma GrownEmpty(m: Mem, m': Mem, d: int, lo: int, a: int, hi: int, gap: int)
    requires Grown(m, m', d, lo, a, gap) && Empty(m, d, lo, hi) && (a == lo || (a == lo + 1 && gap == lo))
    ensures Empty(m', d, lo, hi)
  {
    hide Look, Page, Num;
  }

  lemma Undone(x: Pool, y: Pool, z: Pool, d: int, lo: int, a: int, hi: int, gap: int, lost: set<int>)
    requires Good(x) && Good(y) && Grown(x.mem, y.mem, d, lo, a, gap) && lo <= a <= hi && Cleared(y, z, d, Span(lo, hi))
    requires Empty(x.mem, d, lo, hi) && OthersSame(x, y, d) && OnlyBut(x.owner, y.owner, d, lost) && d in x.dirs
             && x.dirs == y.dirs
    ensures Empty(z.mem, d, lo, hi) && Outside(x.mem, z.mem, d, lo, hi) && OthersSame(x, z, d) && z.dirs == y.dirs
    ensures OnlyTabs(x.owner, z.owner, d, lost)
  {
    hide Look, Page, OthersSame, ZeroPage, Good, Num;
    OthersTrans(x, y, z, d);
    DirKept(x, d);
    forall f | f in x.owner
      ensures if f in lost then z.owner[f] == Held && x.owner[f] == Free
              else z.owner[f] == x.owner[f] || (x.owner[f] == Free && z.owner[f].Tab? && z.owner[f].d == d)
    {
      OldLeaf(x, d, lo, hi, f);
      if x.owner[f] == Free && y.owner[f].Leaf? && y.owner[f].d == d {
        NewLeaf(x, y, d, lo, a, hi, gap, f);
      }
    }
  }

  lemma OldLeaf(x: Pool, d: int, lo: int, hi: int, f: int)
    requires Good(x) && Empty(x.mem, d, lo, hi) && f in x.owner
    ensures !InPages(x.owner[f], d, Span(lo, hi))
  {
    hide Look, FreeOk, DirsOk, Num;
    assert OwnerOk(x, f);
    assert InPages(x.owner[f], d, Span(lo, hi)) ==> OnPages(x.owner[f].i, x.owner[f].j, Span(lo, hi));
  }

  /** A frame that was free and now maps a page maps one of the new pages; a directory stays one. */
  lemma NewLeaf(x: Pool, y: Pool, d: int, lo: int, a: int, hi: int, gap: int, f: int)
    requires Good(x) && Good(y) && Grown(x.mem, y.mem, d, lo, a, gap) && lo <= a <= hi && d in x.dirs
    requires f in x.owner && x.owner[f] == Free && f in y.owner && y.owner[f].Leaf? && y.owner[f].d == d
    ensures InPages(y.owner[f], d, Span(lo, hi))
  {
    hide Page, ZeroPage, FreeOk;
    assert OwnerOk(y, f);
    var i, j := y.owner[f].i, y.owner[f].j;
    assert !OnPages(i, j, Span(lo, a)) ==> Look(y.mem, d, i, j) == Look(x.mem, d, i, j);
    assert Present(Look(x.mem, d, i, j)) ==> LeafOk(x, d, i, j);
  }

  lemma SameAllOthers(x: Pool, y: Pool, d: int)
    requires SameAll(x, y.mem) && x.dirs == y.dirs
    ensures OthersSame(x, y, d)
  {
  }

  lemma SameLooks(m: Mem, m': Mem, d: int)
    requires SameSpace(m, m', d)
    ensures forall a, b :: Look(m', d, a, b) == Look(m, d, a, b)
    ensures forall a, b :: a < NUSER ==> Page(m', d, a, b) == Page(m, d, a, b)
  {
  }

  lemma SameAllRefl(y: Pool)
    ensures SameAll(y, y.mem)
  {
  }

  // ---- runs that lose a page and a frame --------------------------------------------------------------------

  lemma NoUserPages(kmap: seq<Range>, m: Mem, d: int)
    requires KernelOnly(m, d, NENTRIES * NENTRIES) && Kernel(kmap) && Tabled(m, d, kmap)
    ensures Empty(m, d, 0, 1) && Frames(m, d, 0, 1) == 2 && Frames(m, d, 0, 0) == 0 && NewTable(m, d, 0, 0)
  {
    hide Look, Entry, Present, Kernel, Tabled;
    BareDir(kmap, m, d);
    FramesBare(m, d, 0);
    FramesBare(m, d, 1);
  }

  /** A memory of `n` frames, all free, and in it a process without user pages. */
  method Start(kmap: seq<Range>, n: nat) returns (vm: Vm, d: int)
    requires Kernel(kmap) && n > |Slots(kmap)|
    ensures fresh(vm) && vm.Valid() && vm.dirs == {d} && |vm.free| == n - 1 - |Slots(kmap)|
    ensures KernelOnly(vm.mem, d, NENTRIES * NENTRIES) && Tabled(vm.mem, d, kmap)
  {
    hide Good, KernelOnly, Tabled, Slots, Kernel, OnlyTo;
    vm := new Vm(Span(0, n));
    vm.Freerange(0, n);
    var ok;
    ok, d := vm.Setupkvm(kmap);
  }

  /** With one frame left, allocuvm of one page reports success, and the page is not there. */
  method MissingPage(kmap: seq<Range>, n: nat) returns (vm: Vm, d: int, r: int)
    requires Kernel(kmap) && n == 2 + |Slots(kmap)|
    ensures fresh(vm) && vm.Valid() && d in vm.dirs && r == PGSIZE && !Present(At(vm.mem, d, 0)) && vm.free == []
  {
    hide Good, KernelOnly, Tabled, Slots, Kernel, OnlyBut, OnlyTabs, OthersSame, Frames, NewTable, Empty, Outside;
    vm, d := Start(kmap, n);
    NoUserPages(kmap, vm.mem, d);
    ghost var y := vm.Now();
    assert Stranded(y, d, 0, 0);
    assert RoundUp(0) == 0 && RoundUp(PGSIZE) == 1;
    ghost var gap, lost;
    r, gap, lost := vm.Allocuvm(d, 0, PGSIZE);
    assert OnPages(0, 0, Span(0, 1));
  }

  /** With one frame left after setupkvm, copyuvm of one page fails and its frame belongs to nobody. */
  method LostFrame(kmap: seq<Range>, n: nat) returns (vm: Vm, ok: bool, ghost f: int)
    requires Kernel(kmap) && n == 5 + 2 * |Slots(kmap)|
    ensures fresh(vm) && vm.Valid() && !ok && f in vm.owner && vm.owner[f] == Held
  {
    hide Good, KernelOnly, Tabled, Slots, Kernel, OnlyBut, OnlyTabs, OthersSame, Frames, NewTable, Empty, Outside,
         CopyLoses, SameAll;
    var parent, d;
    vm, parent := Start(kmap, n);
    NoUserPages(kmap, vm.mem, parent);
    ghost var gap, lost, started;
    ghost var y := vm.Now();
    ok, gap, lost := vm.AllocPages(parent, 0, 1);
    assert gap == -1 && |vm.free| == 2 + |Slots(kmap)|;
    assert OnPages(0, 0, Span(0, 1));
    OneLeft();
    f := vm.free[|vm.free| - 1];
    FreeOwned(vm.Now(), |vm.free| - 1);
    ok, d, lost, started := vm.Copyuvm(parent, 1, kmap);
  }

  lemma FreeOwned(y: Pool, k: nat)
    requires Good(y) && k < |y.free|
    ensures y.free[k] in y.owner
  {
  }

  lemma OneLeft()
    ensures CopyLoses(1, 1) && (1 + (NENTRIES - 1)) / NENTRIES == 1
  {
    assert CopyStrands(1, 1, 0);
  }
}
