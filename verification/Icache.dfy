/** The inode cache of fs.c: its reference counts. */
module Icache {
  const NINODE: nat := 50
  const ROOTDEV: int := 1
  const ROOTINO: int := 1

  datatype Key = Key(dev: int, inum: int)
  datatype Slot = Slot(ref: nat, key: Key)

  /** One live slot per inode. */
  ghost predicate Unique(ss: seq<Slot>) {
    forall i, j :: 0 <= i < j < |ss| && ss[i].ref > 0 && ss[j].ref > 0 ==> ss[i].key != ss[j].key
  }

  /** The number of references to an inode. */
  function Refs(ss: seq<Slot>, k: Key): (n: nat) {
    if ss == [] then 0 else if ss[0].ref > 0 && ss[0].key == k then ss[0].ref else Refs(ss[1..], k)
  }

  /** The number of slots in use. */
  function Live(ss: seq<Slot>): (n: nat)
    ensures n <= |ss|
  {
    if ss == [] then 0 else (if ss[0].ref > 0 then 1 else 0) + Live(ss[1..])
  }

  lemma {:induction false} RefsAt(ss: seq<Slot>, i: nat)
    requires Unique(ss) && i < |ss| && ss[i].ref > 0
    ensures Refs(ss, ss[i].key) == ss[i].ref
  {
    if i > 0 {
      assert ss[1..][i - 1] == ss[i];
      assert Unique(ss[1..]) by {
        forall a, b | 0 <= a < b < |ss[1..]| && ss[1..][a].ref > 0 && ss[1..][b].ref > 0
            ensures ss[1..][a].key != ss[1..][b].key {
          assert ss[a + 1].key != ss[b + 1].key;
        }
      }
      RefsAt(ss[1..], i - 1);
    }
  }

  lemma {:induction false} RefsNone(ss: seq<Slot>, k: Key)
    requires forall i :: 0 <= i < |ss| && ss[i].ref > 0 ==> ss[i].key != k
    ensures Refs(ss, k) == 0
  {
    if ss != [] {
      RefsNone(ss[1..], k);
    }
  }

  lemma {:induction false} LiveSet(ss: seq<Slot>, i: nat, s: Slot)
    requires i < |ss|
    ensures Live(ss[i := s]) == Live(ss) - (if ss[i].ref > 0 then 1 else 0) + if s.ref > 0 then 1 else 0
  {
    if i == 0 {
      assert ss[i := s][1..] == ss[1..];
    } else {
      assert ss[i := s][1..] == ss[1..][i - 1 := s];
      LiveSet(ss[1..], i - 1, s);
    }
  }

  /** Replacing a slot changes the references of the inode that leaves and the one that comes. */
  lemma RefsSet(ss: seq<Slot>, i: nat, s: Slot, k: Key)
    requires Unique(ss) && i < |ss| && Unique(ss[i := s])
    ensures Refs(ss[i := s], k) ==
              if s.ref > 0 && s.key == k then s.ref
              else if ss[i].ref > 0 && ss[i].key == k then 0
              else Refs(ss, k)
  {
    var r := ss[i := s];
    if s.ref > 0 && s.key == k {
      RefsAt(r, i);
    } else if j :| 0 <= j < |r| && r[j].ref > 0 && r[j].key == k {
      RefsAt(r, j);
      RefsAt(ss, j);
    } else {
      RefsNone(r, k);
      if !(ss[i].ref > 0 && ss[i].key == k) {
        forall j | 0 <= j < |ss| && ss[j].ref > 0 ensures ss[j].key != k {
          assert j != i ==> r[j] == ss[j];
        }
        RefsNone(ss, k);
      }
    }
  }

  class Cache {
    var ss: seq<Slot>

    ghost predicate Valid()
      reads this
    {
      |ss| == NINODE && Unique(ss)
    }

    constructor ()
      ensures Valid() && Live(ss) == 0 && forall k :: Refs(ss, k) == 0
    {
      ss := seq(NINODE, _ => Slot(0, Key(0, 0)));
      new;
      NoneLive(ss);
    }

    /** iget: the slot of the inode, which now has one more reference. It needs an empty slot if the inode is not
        cached. */
    method Iget(k: Key) returns (i: nat)
      requires Valid() && (Refs(ss, k) > 0 || Live(ss) < NINODE)
      modifies this
      ensures Valid() && i < NINODE && ss[i].ref > 0 && ss[i].key == k
      ensures forall j :: 0 <= j < NINODE && j != i ==> ss[j] == old(ss)[j]
      ensures old(ss)[i].ref == 0 || old(ss)[i].key == k
      ensures forall x :: Refs(ss, x) == old(Refs(ss, x)) + if x == k then 1 else 0
      ensures Live(ss) == old(Live(ss)) + if old(Refs(ss, k)) == 0 then 1 else 0
    {
      var empty: nat := NINODE;
      i := 0;
      while i < NINODE
        invariant 0 <= i <= NINODE && ss == old(ss)
        invariant empty == NINODE || (empty < i && ss[empty].ref == 0)
        invariant empty == NINODE ==> forall j :: 0 <= j < i ==> ss[j].ref > 0
        invariant forall j :: 0 <= j < i && ss[j].ref > 0 ==> ss[j].key != k
      {
        if ss[i].ref > 0 && ss[i].key == k {
          RefsAt(ss, i);
          Count(i, Slot(ss[i].ref + 1, k));
          ss := ss[i := Slot(ss[i].ref + 1, k)];
          return;
        }
        if empty == NINODE && ss[i].ref == 0 {
          empty := i;
        }
        i := i + 1;
      }
      RefsNone(ss, k);
      if empty == NINODE {
        AllLive(ss);
        assert false;
      }
      i := empty;
      Count(i, Slot(1, k));
      ss := ss[i := Slot(1, k)];
    }

    /** What one slot's change does to the counts. */
    lemma Count(i: nat, s: Slot)
      requires Valid() && i < NINODE && Unique(ss[i := s])
      ensures forall x :: Refs(ss[i := s], x) ==
                if s.ref > 0 && s.key == x then s.ref else if ss[i].ref > 0 && ss[i].key == x then 0 else Refs(ss, x)
      ensures Live(ss[i := s]) == Live(ss) - (if ss[i].ref > 0 then 1 else 0) + if s.ref > 0 then 1 else 0
    {
      var r := ss[i := s];
      forall x ensures Refs(r, x) ==
                         if s.ref > 0 && s.key == x then s.ref else if ss[i].ref > 0
                             && ss[i].key == x then 0 else Refs(ss, x) {
        RefsSet(ss, i, s, x);
      }
      LiveSet(ss, i, s);
    }

    /** idup */
    method Idup(i: nat)
      requires Valid() && i < NINODE && ss[i].ref > 0
      modifies this
      ensures Valid() && ss[i].ref > 0 && ss[i].key == old(ss)[i].key
      ensures forall x :: Refs(ss, x) == old(Refs(ss, x)) + if x == ss[i].key then 1 else 0
      ensures Live(ss) == old(Live(ss))
    {
      RefsAt(ss, i);
      Count(i, Slot(ss[i].ref + 1, ss[i].key));
      ss := ss[i := Slot(ss[i].ref + 1, ss[i].key)];
    }

    /** iput, as far as references go */
    method Iput(i: nat)
      requires Valid() && i < NINODE && ss[i].ref > 0
      modifies this
      ensures Valid()
      ensures forall x :: Refs(ss, x) == old(Refs(ss, x)) - if x == old(ss)[i].key then 1 else 0
      ensures forall j :: 0 <= j < NINODE && j != i ==> ss[j] == old(ss)[j]
      ensures ss[i] == Slot(old(ss)[i].ref - 1, old(ss)[i].key)
      ensures Live(ss) == old(Live(ss)) - if old(Refs(ss, ss[i].key)) == 1 then 1 else 0
    {
      RefsAt(ss, i);
      Count(i, Slot(ss[i].ref - 1, ss[i].key));
      ss := ss[i := Slot(ss[i].ref - 1, ss[i].key)];
    }
  }

  lemma {:induction false} AllLive(ss: seq<Slot>)
    requires forall j :: 0 <= j < |ss| ==> ss[j].ref > 0
    ensures Live(ss) == |ss|
  {
    if ss != [] {
      AllLive(ss[1..]);
    }
  }

  lemma {:induction false} NoneLive(ss: seq<Slot>)
    requires forall j :: 0 <= j < |ss| ==> ss[j].ref == 0
    ensures Live(ss) == 0 && forall k :: Refs(ss, k) == 0
  {
    if ss != [] {
      NoneLive(ss[1..]);
    }
  }

  // ---- walking a path ---------------------------------------------------------------------------------------

  lemma CachedRefs(ss: seq<Slot>, i: nat)
    requires Unique(ss) && i < |ss| && ss[i].ref > 0
    ensures Refs(ss, ss[i].key) == ss[i].ref
  {
    RefsAt(ss, i);
  }

  /** The extra references and slots that holding one reference to `k` costs. */
  ghost predicate Holding(ss0: seq<Slot>, ss: seq<Slot>, k: Key) {
    && (forall x :: Refs(ss, x) == Refs(ss0, x) + if x == k then 1 else 0)
    && Live(ss) == Live(ss0) + if Refs(ss0, k) == 0 then 1 else 0
  }

  /** The reference moves from an inode to the next one on the path. */
  method Step(c: Cache, ip: nat, k: Key, ghost ss0: seq<Slot>) returns (next: nat)
    requires c.Valid() && ip < NINODE && c.ss[ip].ref > 0 && Holding(ss0, c.ss, c.ss[ip].key) && Live(ss0) + 2 <= NINODE
    modifies c
    ensures c.Valid() && next < NINODE && c.ss[next].ref > 0 && c.ss[next].key == k && Holding(ss0, c.ss, k)
  {
    hide Refs, Live, Unique;
    ghost var kp := c.ss[ip].key;
    assert Refs(c.ss, kp) == Refs(ss0, kp) + 1 && Refs(c.ss, k) == Refs(ss0, k) + if k == kp then 1 else 0;
    next := c.Iget(k);
    CachedRefs(c.ss, next);
    CachedRefs(c.ss, ip);
    assert Refs(c.ss, kp) == Refs(ss0, kp) + 1 + if k == kp then 1 else 0;
    c.Iput(ip);
    assert forall x :: Refs(c.ss, x) == Refs(ss0, x) + if x == k then 1 else 0;
  }
}
