/** The disk request queue of ide.c: iderw appends, the interrupt handler takes from the front. Port I/O is replaced by
    a disk that carries out the request that was started.

    A step is what runs with idelock held: iderw up to its sleep, or one interrupt. Buffers that are not queued may
    change between steps. */
module Ide {
  import opened BufferCache

  const NOBODY: int := 0

  /** `qnext` spells out the queue. */
  ghost predicate Chain(head: int, qnext: map<int, int>, q: seq<int>)
    decreases |q|
  {
    if q == [] then head == NOBODY
    else head == q[0] != NOBODY && head in qnext && Chain(qnext[head], qnext, q[1..])
  }

  ghost predicate Distinct(q: seq<int>) {
    forall i, j :: 0 <= i < j < |q| ==> q[i] != q[j]
  }

  /** Changing the link of something that is not queued changes nothing. */
  lemma {:induction false} ChainElsewhere(head: int, qnext: map<int, int>, q: seq<int>, b: int, v: int)
    requires Chain(head, qnext, q) && b !in q
    ensures Chain(head, qnext[b := v], q)
    decreases |q|
  {
    if q != [] {
      ChainElsewhere(qnext[head], qnext, q[1..], b, v);
    }
  }

  /** Linking the last element to a new one appends it. */
  lemma {:induction false} ChainAppend(head: int, qnext: map<int, int>, q: seq<int>, b: int)
    requires Chain(head, qnext, q) && q != [] && Distinct(q) && b !in q && b != NOBODY && b in qnext
             && qnext[b] == NOBODY
    ensures Chain(head, qnext[q[|q| - 1] := b], q + [b])
    decreases |q|
  {
    var last := q[|q| - 1];
    var n := qnext[last := b];
    assert (q + [b])[1..] == q[1..] + [b];
    if |q| == 1 {
      assert Chain(NOBODY, n, []);
      assert [b][1..] == [];
      assert Chain(b, n, [b]);
      assert q[1..] + [b] == [b];
    } else {
      assert q[1..][|q| - 2] == last && q[0] != last;
      assert Distinct(q[1..]) by {
        forall i, j | 0 <= i < j < |q[1..]| ensures q[1..][i] != q[1..][j] {
          assert q[i + 1] != q[j + 1];
        }
      }
      ChainAppend(qnext[head], qnext, q[1..], b);
    }
  }

  lemma {:induction false} ChainFrom(head: int, qnext: map<int, int>, q: seq<int>, i: nat)
    requires Chain(head, qnext, q) && i < |q|
    ensures q[i] in qnext && q[i] != NOBODY && qnext[q[i]] == if i + 1 < |q| then q[i + 1] else NOBODY
    decreases |q|
  {
    if i > 0 {
      ChainFrom(qnext[head], qnext, q[1..], i - 1);
    } else if |q| > 1 {
      assert q[1..][0] == q[1];
    }
  }

  lemma ChainOne(qnext: map<int, int>, b: int)
    requires b != NOBODY && b in qnext && qnext[b] == NOBODY
    ensures Chain(b, qnext, [b])
  {
    assert [b][1..] == [];
  }

  lemma ChainEnds(head: int, qnext: map<int, int>, q: seq<int>)
    requires Chain(head, qnext, q)
    ensures head == NOBODY <==> q == []
    ensures q != [] ==> head == q[0] && head in qnext && Chain(qnext[head], qnext, q[1..])
  {
  }

  ghost function Members(q: seq<int>): (s: set<int>) {
    set b | b in q
  }

  lemma DistinctAppend(q: seq<int>, b: int)
    requires Distinct(q) && b !in q
    ensures Distinct(q + [b]) && Members(q + [b]) == Members(q) + {b} && b in Members(q + [b])
  {
  }

  /** A request: whose buffer, and the buffer as it was when the request was made. */
  datatype Req = Req(id: int, buf: Buf)

  /** The disk after these requests, each carried out at once. */
  ghost function After(disk: Disk, reqs: seq<Req>): (r: Disk) {
    if reqs == [] then disk else SyncedDisk(reqs[|reqs| - 1].buf, After(disk, reqs[..|reqs| - 1]))
  }

  /** A buffer after its transfer. When the disk reports an error on a read, it is called valid with the data it had. */
  function Answer(x: Buf, disk: Disk, fault: bool): (r: Buf) {
    if fault && !x.dirty then x.(valid := true) else SyncedBuf(x, disk)
  }

  /** What request `k` gets: its atomic transfer after all earlier requests. */
  ghost function Result(disk: Disk, reqs: seq<Req>, faults: seq<bool>, k: nat): (x: Buf)
    requires k < |faults| <= |reqs|
  {
    Answer(reqs[k].buf, After(disk, reqs[..k]), faults[k])
  }

  lemma AfterNext(disk: Disk, reqs: seq<Req>, k: nat)
    requires k < |reqs|
    ensures After(disk, reqs[..k + 1]) == SyncedDisk(reqs[k].buf, After(disk, reqs[..k]))
  {
    assert reqs[..k + 1][..k] == reqs[..k];
  }

  /** The disk is as if the requests served had been carried out one after the other, in the order they were made, and
      each got what it would have got. */
  ghost predicate History(disk0: Disk, reqs: seq<Req>, faults: seq<bool>, results: seq<Buf>, disk: Disk) {
    && |results| == |faults| <= |reqs| && disk == After(disk0, reqs[..|results|])
    && forall k :: 0 <= k < |results| ==> results[k] == Result(disk0, reqs, faults, k)
  }

  lemma HistoryAsk(disk0: Disk, reqs: seq<Req>, faults: seq<bool>, results: seq<Buf>, disk: Disk, r: Req)
    requires History(disk0, reqs, faults, results, disk)
    ensures History(disk0, reqs + [r], faults, results, disk)
  {
    hide After;
    assert (reqs + [r])[..|results|] == reqs[..|results|];
    forall k | 0 <= k < |results| ensures Result(disk0, reqs + [r], faults, k) == Result(disk0, reqs, faults, k) {
      assert (reqs + [r])[..k] == reqs[..k];
    }
  }

  lemma HistoryServe(disk0: Disk, reqs: seq<Req>, faults: seq<bool>, results: seq<Buf>, disk: Disk, fault: bool)
    requires History(disk0, reqs, faults, results, disk) && |results| < |reqs|
    ensures var y := reqs[|results|].buf;
            History(disk0, reqs, faults + [fault], results + [Answer(y, disk, fault)], SyncedDisk(y, disk))
  {
    hide After;
    AfterNext(disk0, reqs, |results|);
    var faults', results' := faults + [fault], results + [Answer(reqs[|results|].buf, disk, fault)];
    forall k | 0 <= k < |results'| ensures results'[k] == Result(disk0, reqs, faults', k) {
      if k < |results| {
        assert results[k] == Result(disk0, reqs, faults, k);
      }
    }
  }

  /** The queue holds the requests from `n` on, and their buffers have not changed since they were made. */
  ghost predicate Waiting(bufs: map<int, Buf>, reqs: seq<Req>, n: nat, q: seq<int>) {
    && |reqs| == n + |q|
    && forall i :: 0 <= i < |q| ==>
         q[i] == reqs[n + i].id && q[i] in bufs && bufs[q[i]] == reqs[n + i].buf
             && !(bufs[q[i]].valid && !bufs[q[i]].dirty)
  }

  class Queue {
    var idequeue: int
    var qnext: map<int, int>
    var bufs: map<int, Buf>
    var disk: Disk
    /** The request the hardware is working on, and the buffers whose processes are asleep in iderw. */
    var started: int
    var asleep: set<int>
    ghost var q: seq<int>
    /** The disk at the start, every request since, and for those served whether the disk reported an error and what
        their buffers then were. */
    ghost var disk0: Disk
    ghost var asked: seq<Req>
    ghost var faults: seq<bool>
    ghost var results: seq<Buf>

    ghost predicate Valid()
      reads this
    {
      && Chain(idequeue, qnext, q) && Distinct(q)
      && started == (if q == [] then NOBODY else q[0])
      && asleep == Members(q)
      && Waiting(bufs, asked, |results|, q) && History(disk0, asked, faults, results, disk)
    }

    constructor (bufs: map<int, Buf>, disk: Disk)
      ensures Valid() && this.bufs == bufs && this.disk == disk && q == []
    {
      idequeue, qnext, started, asleep := NOBODY, map[], NOBODY, {};
      this.bufs, this.disk, disk0 := bufs, disk, disk;
      q, asked, faults, results := [], [], [], [];
    }

    /** A buffer that is not queued changes. */
    method Change(b: int, x: Buf)
      requires Valid() && b !in q
      modifies this`bufs
      ensures Valid() && bufs == old(bufs)[b := x]
    {
      hide Chain, Distinct, Members, History;
      bufs := bufs[b := x];
    }

    /** The walk along a queue that is not empty ends at its last request. */
    method Last() returns (p: int)
      requires Chain(idequeue, qnext, q) && q != []
      ensures p == q[|q| - 1]
    {
      p := idequeue;
      ghost var i := 0;
      ChainFrom(idequeue, qnext, q, 0);
      hide Chain;
      while qnext[p] != NOBODY
        invariant 0 <= i < |q| && p == q[i] && p in qnext && qnext[p] == if i + 1 < |q| then q[i + 1] else NOBODY
        decreases |q| - i
      {
        ChainFrom(idequeue, qnext, q, i + 1);
        p := qnext[p];
        i := i + 1;
      }
      if i + 1 < |q| {
        ChainFrom(idequeue, qnext, q, i + 1);
      }
    }

    /** iderw, up to its sleep: the request goes to the end of the queue and starts if the disk was idle. */
    method Iderw(b: int)
      requires Valid() && b != NOBODY && b in bufs && b !in q && !(bufs[b].valid && !bufs[b].dirty)
      modifies this`idequeue, this`qnext, this`started, this`asleep, this`q, this`asked
      ensures Valid() && q == old(q) + [b] && asked == old(asked) + [Req(b, bufs[b])] && b in asleep
    {
      hide Chain, Distinct, Members, Waiting, History;
      WaitingMore(bufs, asked, |results|, q, b);
      HistoryAsk(disk0, asked, faults, results, disk, Req(b, bufs[b]));
      Append(b);
      asked := asked + [Req(b, bufs[b])];
      if idequeue == b {
        started := b;
      }
      asleep := asleep + {b};
    }

    /** The first half of iderw: the buffer joins the linked queue. */
    method Append(b: int)
      requires Chain(idequeue, qnext, q) && Distinct(q) && b != NOBODY && b !in q
      modifies this`idequeue, this`qnext, this`q
      ensures Chain(idequeue, qnext, q) && Distinct(q) && q == old(q) + [b] && Members(q) == old(Members(q)) + {b}
      ensures idequeue == q[0]
    {
      hide Chain, Distinct, Members;
      ChainElsewhere(idequeue, qnext, q, b, NOBODY);
      ChainEnds(idequeue, qnext, q);
      DistinctAppend(q, b);
      qnext := qnext[b := NOBODY];
      if idequeue == NOBODY {
        ChainOne(qnext, b);
        assert [] + [b] == [b];
        idequeue := b;
      } else {
        var p := Last();
        ChainAppend(idequeue, qnext, q, b);
        qnext := qnext[p := b];
      }
      q := q + [b];
    }

    /** The disk does what it was asked to, and the buffer's flags say so. */
    method CarryOut(b: int, fault: bool)
      requires b in bufs
      modifies this`bufs, this`disk
      ensures bufs == old(bufs)[b := Answer(old(bufs)[b], old(disk), fault)]
              && disk == SyncedDisk(old(bufs)[b], old(disk))
    {
      var x := bufs[b];
      if x.dirty {
        disk := disk[x.at := x.data];
      } else if !fault {
        x := x.(data := if x.at in disk then disk[x.at] else x.data);
      }
      bufs := bufs[b := x.(valid := true, dirty := false)];
    }

    /** ideintr: the oldest request is carried out, its process wakes, and the next request starts. */
    method Ideintr(fault: bool)
      requires Valid()
      modifies this`idequeue, this`qnext, this`started, this`asleep, this`q, this`bufs, this`disk, this`faults,
          this`results
      ensures Valid()
      ensures old(q) == [] ==> bufs == old(bufs) && disk == old(disk) && results == old(results) && q == []
      ensures old(q) != [] ==>
                var b := old(q)[0];
                && q == old(q)[1..] && b !in asleep && b in old(bufs)
                && faults == old(faults) + [fault] && disk == SyncedDisk(old(bufs)[b], old(disk))
                && var x := Answer(old(bufs)[b], old(disk), fault);
                    bufs == old(bufs)[b := x]
                    && results == old(results) + [x]
    {
      hide Chain, Distinct, Members, Waiting, History, Answer, SyncedDisk;
      var b := idequeue;
      ChainEnds(idequeue, qnext, q);
      if b == NOBODY {
        return;
      }
      WaitingFirst(bufs, asked, |results|, q);
      idequeue := qnext[b];
      CarryOut(b, fault);
      asleep := asleep - {b};
      Dequeue(q);
      WaitingNext(old(bufs), asked, |results|, q, bufs[b]);
      HistoryServe(disk0, asked, faults, results, old(disk), fault);
      q, faults, results := q[1..], faults + [fault], results + [bufs[b]];
      ChainEnds(idequeue, qnext, q);
      started := NOBODY;
      if idequeue != NOBODY {
        started := idequeue;
      }
    }

    /** Whoever sleeps in iderw has a request in the queue, and the disk is working on the first. */
    lemma Progress(b: int)
      requires Valid() && b in asleep
      ensures exists i :: 0 <= i < |q| && q[i] == b && started == q[0]
    {
    }

    /** iderw from start to end on an idle disk without errors is the atomic transfer of the buffer cache. */
    method Transfer(b: int)
      requires Valid() && q == [] && b != NOBODY && b in bufs && !(bufs[b].valid && !bufs[b].dirty)
      modifies this
      ensures Valid() && q == []
      ensures bufs == old(bufs)[b := SyncedBuf(old(bufs)[b], old(disk))] && disk == SyncedDisk(old(bufs)[b], old(disk))
    {
      hide Chain, Distinct, Members, Waiting, History;
      Iderw(b);
      assert q == [b];
      Ideintr(false);
    }
  }

  lemma WaitingFirst(bufs: map<int, Buf>, reqs: seq<Req>, n: nat, q: seq<int>)
    requires Waiting(bufs, reqs, n, q) && q != []
    ensures n < |reqs| && q[0] in bufs && bufs[q[0]] == reqs[n].buf
  {
  }

  lemma WaitingMore(bufs: map<int, Buf>, reqs: seq<Req>, n: nat, q: seq<int>, b: int)
    requires Waiting(bufs, reqs, n, q) && b in bufs && !(bufs[b].valid && !bufs[b].dirty)
    ensures Waiting(bufs, reqs + [Req(b, bufs[b])], n, q + [b])
  {
  }

  lemma WaitingNext(bufs: map<int, Buf>, reqs: seq<Req>, n: nat, q: seq<int>, x: Buf)
    requires Waiting(bufs, reqs, n, q) && q != [] && Distinct(q)
    ensures Waiting(bufs[q[0] := x], reqs, n + 1, q[1..])
  {
    forall i | 0 <= i < |q[1..]| ensures q[1..][i] == q[i + 1] != q[0] && q[i + 1] == reqs[n + 1 + i].id {
    }
  }

  lemma Dequeue(q: seq<int>)
    requires q != [] && Distinct(q)
    ensures Distinct(q[1..]) && q[0] !in q[1..] && Members(q[1..]) == Members(q) - {q[0]} && forall b ::
            b in q[1..]
            <==> b in q && b != q[0]
  {
    forall i, j | 0 <= i < j < |q[1..]| ensures q[1..][i] != q[1..][j] {
      assert q[i + 1] != q[j + 1];
    }
    forall i | 0 <= i < |q[1..]| ensures q[1..][i] != q[0] {
      assert q[i + 1] != q[0];
    }
    forall b | b in q && b != q[0] ensures b in q[1..] {
      var i :| 0 <= i < |q| && q[i] == b;
      assert q[1..][i - 1] == b;
    }
  }
}
