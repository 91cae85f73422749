/** Page numbers: which pages a loop over an address range looks at, and how many frames it takes to map them. */
module Pages {
  import opened PageTables

  /** Pages below KERNBASE. */
  const NUSERPAGES: nat := NUSER * NENTRIES

  function Dx(v: int): (i: int) {
    v / NENTRIES
  }

  function Tx(v: int): (j: int)
    ensures 0 <= j < NENTRIES
  {
    v % NENTRIES
  }

  /** The number of the page that entry `j` of directory slot `i` maps. */
  function Num(i: int, j: int): (v: int) {
    i * NENTRIES + j
  }

  lemma Split(v: int, w: int)
    ensures Dx(v) == Dx(w) && Tx(v) == Tx(w) ==> v == w
  {
  }

  lemma SplitUser(v: int)
    requires 0 <= v < NUSERPAGES
    ensures 0 <= Dx(v) < NUSER
  {
  }

  lemma NumIs(a: int, i: int, j: int)
    requires 0 <= j < NENTRIES
    ensures Num(i, j) == a <==> i == Dx(a) && j == Tx(a)
  {
  }

  /** Where user addresses end, in bytes. */
  const KERNBASE: nat := NUSERPAGES * PGSIZE

  /** The first page at or above address `sz`. */
  function RoundUp(sz: int): (v: int)
    ensures (v - 1) * PGSIZE < sz <= v * PGSIZE
  {
    (sz + (PGSIZE - 1)) / PGSIZE
  }

  /** The pages from one rounded size to another are those that start between the two. */
  lemma RoundUpBytes(lo: int, hi: int, v: int)
    ensures RoundUp(lo) <= v < RoundUp(hi) <==> lo <= v * PGSIZE < hi
  {
  }

  lemma RoundUpOrder(a: int, b: int)
    requires 0 <= a <= b <= KERNBASE
    ensures 0 <= RoundUp(a) <= RoundUp(b) <= NUSERPAGES
  {
  }

  predicate Between(v: int, lo: int, hi: int) {
    lo <= v < hi
  }

  /** The pages from `lo` to `hi`. */
  function Span(lo: int, hi: int): (ps: set<int>)
    ensures forall v :: v in ps <==> lo <= v < hi
  {
    set v | lo <= v < hi && Between(v, lo, hi)
  }

  /** Entry (i, j) is that of a user page in `ps`. */
  predicate OnPages(i: int, j: int, ps: set<int>) {
    0 <= i < NUSER && 0 <= j < NENTRIES && Num(i, j) in ps
  }

  // ---- the pages that deallocuvm looks at -------------------------------------------------------------------

  /** The pages that deallocuvm's loop looks at, when `tabs` are the directory slots that have tables. */
  ghost predicate Visits(tabs: set<int>, a: int, hi: int, v: int)
    decreases hi - a
  {
    a < hi && (v == a || Visits(tabs, if Dx(a) in tabs then a + 1 else a + NENTRIES, hi, v))
  }

  ghost predicate NoTableSkipped(tabs: set<int>, lo: int, hi: int) {
    Tx(lo) == 0 || Dx(lo) in tabs || forall k :: Dx(lo) < k && k * NENTRIES < hi ==> k !in tabs
  }

  lemma {:induction false} VisitsAll(tabs: set<int>, a: int, hi: int, v: int)
    requires NoTableSkipped(tabs, a, hi) && 0 <= a <= v < hi && Dx(v) in tabs
    ensures Visits(tabs, a, hi, v)
    decreases hi - a
  {
    if v != a {
      if Dx(a) in tabs {
        VisitsAll(tabs, a + 1, hi, v);
      } else {
        assert Dx(a + NENTRIES) == Dx(a) + 1 && Tx(a + NENTRIES) == Tx(a);
        VisitsAll(tabs, a + NENTRIES, hi, v);
      }
    }
  }

  lemma {:induction false} VisitsUp(tabs: set<int>, a: int, hi: int, v: int)
    requires Visits(tabs, a, hi, v)
    ensures v >= a
    decreases hi - a
  {
    if v != a {
      VisitsUp(tabs, if Dx(a) in tabs then a + 1 else a + NENTRIES, hi, v);
    }
  }

  /** From the middle of a missing table the loop jumps into the middle of the next one there is. */
  lemma {:induction false} JumpsPast(tabs: set<int>, a: int, hi: int, k: int)
    requires 0 <= a && Tx(a) != 0 && Dx(a) < k && forall l :: Dx(a) <= l < k ==> l !in tabs
    ensures !Visits(tabs, a, hi, k * NENTRIES)
    decreases hi - a
  {
    if a < hi {
      assert Dx(a + NENTRIES) == Dx(a) + 1 && Tx(a + NENTRIES) == Tx(a);
      if Dx(a) + 1 < k {
        JumpsPast(tabs, a + NENTRIES, hi, k);
      } else if Visits(tabs, a + NENTRIES, hi, k * NENTRIES) {
        VisitsUp(tabs, a + NENTRIES, hi, k * NENTRIES);
      }
    }
  }

  /** deallocuvm looks at every page that can be mapped exactly when its 4MB skip passes over no table. */
  lemma SkipExact(tabs: set<int>, lo: int, hi: int)
    requires 0 <= lo
    ensures (forall v :: lo <= v < hi && Dx(v) in tabs ==> Visits(tabs, lo, hi, v)) <==> NoTableSkipped(tabs, lo, hi)
  {
    if NoTableSkipped(tabs, lo, hi) {
      forall v | lo <= v < hi && Dx(v) in tabs ensures Visits(tabs, lo, hi, v) {
        VisitsAll(tabs, lo, hi, v);
      }
    } else {
      var k :| Dx(lo) < k && k * NENTRIES < hi && k in tabs;
      k := LeastTable(tabs, Dx(lo), k);
      JumpsPast(tabs, lo, hi, k);
      assert Dx(k * NENTRIES) == k;
      assert lo <= k * NENTRIES < hi && Dx(k * NENTRIES) in tabs && !Visits(tabs, lo, hi, k * NENTRIES);
    }
  }

  lemma LeastTable(tabs: set<int>, i: int, k: int) returns (l: int)
    requires i < k && k in tabs && i !in tabs
    ensures i < l <= k && l in tabs && forall j :: i <= j < l ==> j !in tabs
  {
    l := i + 1;
    while l !in tabs
      invariant i < l <= k && forall j :: i <= j < l ==> j !in tabs
      decreases k - l
    {
      l := l + 1;
    }
  }

  lemma VisitsNext(tabs: set<int>, a: int, hi: int)
    requires a < hi
    ensures forall v :: Visits(tabs, a, hi, v) <==>
            v == a
            || Visits(tabs, if Dx(a) in tabs then a + 1 else a + NENTRIES, hi, v)
  {
  }

  lemma VisitsEnd(tabs: set<int>, a: int, hi: int)
    requires a >= hi
    ensures forall v :: !Visits(tabs, a, hi, v)
  {
  }

  /** The directory slots that have a table. */
  ghost function Tabs(m: Mem, d: int): (ks: set<int>) {
    set k | 0 <= k < NENTRIES && Present(Entry(m, d, k))
  }

  ghost function Visited(tabs: set<int>, lo: int, hi: int): (ps: set<int>) {
    set v | lo <= v < hi && Visits(tabs, lo, hi, v)
  }

  // ---- frames that it takes to map pages --------------------------------------------------------------------

  /** The directory slots of pages `lo` to `hi`. */
  ghost function SlotSet(lo: int, hi: int): (ks: set<int>)
    ensures forall k :: k in ks <==> Slot(lo, hi, k)
  {
    set k | Dx(lo) <= k <= Dx(hi - 1) && Slot(lo, hi, k)
  }

  /** The directory slots that lack a table for pages `lo` to `hi`. */
  ghost function Lacking(m: Mem, d: int, lo: int, hi: int): (ks: set<int>) {
    set k | Dx(lo) <= k <= Dx(hi - 1) && Slot(lo, hi, k) && !Present(Entry(m, d, k))
  }

  lemma LackingSlots(m: Mem, d: int, lo: int, hi: int)
    ensures forall k :: k in Lacking(m, d, lo, hi) <==> k in SlotSet(lo, hi) && !Present(Entry(m, d, k))
  {
    hide Present, Entry;
  }

  /** One frame a page and one a missing table. */
  ghost function Frames(m: Mem, d: int, lo: int, hi: int): (n: nat)
    requires lo <= hi
  {
    hi - lo + |Lacking(m, d, lo, hi)|
  }

  /** Page `a` is the first of the range in a table that is missing. */
  ghost predicate NewTable(m: Mem, d: int, lo: int, a: int) {
    !Present(Entry(m, d, Dx(a))) && (a == lo || Tx(a) == 0)
  }

  /** Slot `k` holds one of the pages `lo` to `hi`. */
  predicate Slot(lo: int, hi: int, k: int) {
    lo < hi && Dx(lo) <= k <= Dx(hi - 1)
  }

  /** Page `a` adds at most its own slot. */
  lemma SlotNext(lo: int, a: int, k: int)
    requires lo <= a
    ensures Slot(lo, a + 1, k) <==> Slot(lo, a, k) || k == Dx(a)
    ensures Slot(lo, a, Dx(a)) <==> !(a == lo || Tx(a) == 0)
  {
    if lo < a {
      assert Dx(a - 1) == if Tx(a) == 0 then Dx(a) - 1 else Dx(a);
      assert Dx(lo) <= Dx(a - 1);
    }
  }

  lemma LackingNext(m: Mem, d: int, lo: int, a: int)
    requires lo <= a
    ensures |Lacking(m, d, lo, a + 1)| == |Lacking(m, d, lo, a)| + if NewTable(m, d, lo, a) then 1 else 0
  {
    hide Entry, Present, Dx, Tx;
    var ks, ks' := Lacking(m, d, lo, a), Lacking(m, d, lo, a + 1);
    SlotNext(lo, a, Dx(a));
    forall k ensures k in ks' <==> k in ks || (NewTable(m, d, lo, a) && k == Dx(a)) {
      SlotNext(lo, a, k);
    }
    if NewTable(m, d, lo, a) {
      assert Dx(a) !in ks && ks' == ks + {Dx(a)};
    } else {
      assert ks' == ks;
    }
  }

  lemma {:induction false} LackingUp(m: Mem, d: int, lo: int, a: int, b: int)
    requires lo <= a <= b
    ensures |Lacking(m, d, lo, a)| <= |Lacking(m, d, lo, b)|
    decreases b - a
  {
    if a < b {
      LackingNext(m, d, lo, b - 1);
      LackingUp(m, d, lo, a, b - 1);
    }
  }

  lemma FramesUp(m: Mem, d: int, lo: int, a: int, b: int)
    requires lo <= a <= b
    ensures Frames(m, d, lo, a) + (b - a) <= Frames(m, d, lo, b)
  {
    LackingUp(m, d, lo, a, b);
  }

  /** There is a frame for page `a` but none for its table. */
  ghost predicate Stranded(x: Pool, d: int, lo: int, a: int) {
    lo <= a && NewTable(x.mem, d, lo, a) && |x.free| == Frames(x.mem, d, lo, a) + 1
  }

  /** Only one page can be stranded: the one at which the frames run out. */
  lemma StrandedAt(x: Pool, d: int, lo: int, a: int, c: int)
    requires Stranded(x, d, lo, a) && lo <= c
    ensures |x.free| >= Frames(x.mem, d, lo, c) <==> a >= c
    ensures |x.free| != Frames(x.mem, d, lo, c)
  {
    hide NewTable;
    LackingNext(x.mem, d, lo, a);
    if a >= c {
      FramesUp(x.mem, d, lo, c, a);
    } else {
      FramesUp(x.mem, d, lo, a + 1, c);
    }
  }

  /** From `x` to `y` the tables for pages `lo` to `a`, and nothing else, were taken from the head of the free list. */
  ghost predicate TookTables(x: Pool, y: Pool, d: int, lo: int, a: int) {
    var n := |Lacking(x.mem, d, lo, a)|;
    n <= |x.free| && y.free == x.free[n..] && TablesTo(x.mem, y.mem, d, lo, a)
  }

  lemma TookTablesNone(x: Pool, d: int, lo: int)
    ensures TookTables(x, x, d, lo, lo)
  {
    assert Lacking(x.mem, d, lo, lo) == {};
  }

  /** One more page: its table is there, or is taken, or cannot be had. */
  lemma TookTablesNext(x: Pool, y: Pool, z: Pool, d: int, lo: int, a: int)
    requires TookTables(x, y, d, lo, a) && lo <= a
    requires Present(Entry(y.mem, d, Dx(a))) || y.free != []
    requires forall k :: Present(Entry(z.mem, d, k)) <==> Present(Entry(y.mem, d, k)) || k == Dx(a)
    requires z.free == if Present(Entry(y.mem, d, Dx(a))) then y.free else y.free[1..]
    ensures TookTables(x, z, d, lo, a + 1)
  {
    hide Entry, Present, NewTable, Lacking;
    NextTable(x.mem, y.mem, d, lo, a);
    TablesNext(x.mem, y.mem, z.mem, d, lo, a);
    LackingNext(x.mem, d, lo, a);
  }

  lemma NoTable(x: Pool, y: Pool, d: int, lo: int, a: int, hi: int)
    requires TookTables(x, y, d, lo, a) && lo <= a < hi && !Present(Entry(y.mem, d, Dx(a))) && y.free == []
    ensures |x.free| < |Lacking(x.mem, d, lo, hi)|
  {
    hide Entry, Present, NewTable, Lacking;
    NextTable(x.mem, y.mem, d, lo, a);
    LackingNext(x.mem, d, lo, a);
    LackingUp(x.mem, d, lo, a + 1, hi);
  }

  /** From `x` to `y` pages `lo` to `a` took their frames and tables from the head of the free list. */
  ghost predicate Took(x: Pool, y: Pool, d: int, lo: int, a: int) {
    && lo <= a && Frames(x.mem, d, lo, a) <= |x.free| && y.free == x.free[Frames(x.mem, d, lo, a)..]
    && TablesTo(x.mem, y.mem, d, lo, a)
  }

  /** The tables are the old ones and those of pages `lo` to `a`. */
  ghost predicate TablesTo(m: Mem, m': Mem, d: int, lo: int, a: int) {
    forall k :: Present(Entry(m', d, k)) <==> Present(Entry(m, d, k)) || Slot(lo, a, k)
  }

  lemma TookNone(x: Pool, d: int, lo: int)
    ensures Took(x, x, d, lo, lo)
  {
    assert Lacking(x.mem, d, lo, lo) == {};
  }

  /** Whether the table of the next page is there. */
  lemma NextTable(m: Mem, m': Mem, d: int, lo: int, a: int)
    requires TablesTo(m, m', d, lo, a) && lo <= a
    ensures Present(Entry(m', d, Dx(a))) <==> !NewTable(m, d, lo, a)
  {
    hide Entry, Present, Dx, Tx;
    SlotNext(lo, a, Dx(a));
  }

  lemma TablesNext(m: Mem, m1: Mem, m2: Mem, d: int, lo: int, a: int)
    requires TablesTo(m, m1, d, lo, a) && lo <= a
    requires forall k :: Present(Entry(m2, d, k)) <==> Present(Entry(m1, d, k)) || k == Dx(a)
    ensures TablesTo(m, m2, d, lo, a + 1)
  {
    hide Entry, Present, Dx, Tx, Slot;
    forall k ensures Present(Entry(m2, d, k)) <==> Present(Entry(m, d, k)) || Slot(lo, a + 1, k) {
      SlotNext(lo, a, k);
    }
  }

  lemma TookNext(x: Pool, y: Pool, z: Pool, d: int, lo: int, a: int)
    requires Took(x, y, d, lo, a)
    requires forall k :: Present(Entry(z.mem, d, k)) <==> Present(Entry(y.mem, d, k)) || k == Dx(a)
    requires var n := if Present(Entry(y.mem, d, Dx(a))) then 1 else 2; n <= |y.free| && z.free == y.free[n..]
    ensures Took(x, z, d, lo, a + 1)
  {
    hide Entry, Present, NewTable, Lacking;
    NextTable(x.mem, y.mem, d, lo, a);
    TablesNext(x.mem, y.mem, z.mem, d, lo, a);
    LackingNext(x.mem, d, lo, a);
  }

  /** In a directory without user tables, `n` pages from 0 take one more frame for every 1024. */
  lemma {:induction false} FramesBare(m: Mem, d: int, n: int)
    requires 0 <= n <= NUSERPAGES && forall k :: 0 <= k < NUSER ==> !Present(Entry(m, d, k))
    ensures Frames(m, d, 0, n) == n + (n + (NENTRIES - 1)) / NENTRIES
    ensures n < NUSERPAGES ==> (NewTable(m, d, 0, n) <==> n % NENTRIES == 0)
    decreases n
  {
    hide Entry, Present;
    if n < NUSERPAGES {
      SplitUser(n);
    }
    if n == 0 {
      assert Lacking(m, d, 0, 0) == {};
    } else {
      FramesBare(m, d, n - 1);
      LackingNext(m, d, 0, n - 1);
    }
  }
}
