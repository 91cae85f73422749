/** The bounded ring of pipe.c under any interleaving of readers and writers.

    A step is what one process does while it holds the pipe's lock: from acquiring it (at the start of a call, or on
    waking up) to sleeping or returning. */
module Pipe {
  const PIPESIZE: nat := 512
  const WRAP: nat := 0x1_0000_0000

  type byte = x: int | 0 <= x < 256
  type uint = x: int | 0 <= x < WRAP

  /** A process in pipewrite with `i` bytes stored, one in piperead, or one that has returned. */
  datatype Thread =
    | Writer(src: seq<byte>, i: nat)
    | Reader(n: nat)
    | Wrote(src: seq<byte>, i: nat, r: int)
    | Read(r: int, got: seq<byte>)

  /** What a process has put into the pipe so far. */
  function Sent(th: Thread): (s: seq<byte>)
    requires th.Writer? || th.Wrote? ==> th.i <= |th.src|
  {
    if th.Writer? || th.Wrote? then th.src[..th.i] else []
  }

  // ---- the ring and its wrapping counters -------------------------------------------------------------------

  /** The counters and the buffer say which bytes are in transit. */
  ghost predicate Ring(data: seq<byte>, nread: uint, nwrite: uint, stored: seq<byte>, taken: nat) {
    && |data| == PIPESIZE
    && taken <= |stored| <= taken + PIPESIZE
    && nread == taken % WRAP && nwrite == |stored| % WRAP
    && (forall k: nat :: taken <= k < |stored| ==> data[Place(k)] == stored[k])
  }

  function Place(k: nat): (p: nat)
    ensures p < PIPESIZE
  {
    k % PIPESIZE
  }

  /** The index into the buffer survives the counter's wrap, because the buffer's size divides 2^32. */
  lemma WrapPlace(k: nat)
    ensures Place(k % WRAP) == Place(k)
  {
    assert k == k / WRAP * WRAP + k % WRAP;
    assert WRAP == 8388608 * PIPESIZE;
    assert k == (k / WRAP * 8388608) * PIPESIZE + k % WRAP;
    ModAdd(k / WRAP * 8388608, k % WRAP);
  }

  lemma ModAdd(q: nat, r: nat)
    ensures (q * PIPESIZE + r) % PIPESIZE == r % PIPESIZE
  {
  }

  lemma WrapNext(k: nat)
    ensures (k % WRAP + 1) % WRAP == (k + 1) % WRAP
  {
  }

  lemma PlaceDistinct(j: nat, k: nat)
    requires j < k < j + PIPESIZE
    ensures Place(j) != Place(k)
  {
  }

  /** The two comparisons of the counters, in wrapping arithmetic, mean full and empty. */
  lemma RingTests(data: seq<byte>, nread: uint, nwrite: uint, stored: seq<byte>, taken: nat)
    requires Ring(data, nread, nwrite, stored, taken)
    ensures nwrite == (nread + PIPESIZE) % WRAP <==> |stored| == taken + PIPESIZE
    ensures nread == nwrite <==> |stored| == taken
  {
    var d := |stored| - taken;
    WrapDiff(taken, d);
  }

  lemma WrapDiff(a: nat, d: nat)
    requires d <= PIPESIZE
    ensures (a + d) % WRAP == a % WRAP <==> d == 0
    ensures (a + d) % WRAP == (a % WRAP + PIPESIZE) % WRAP <==> d == PIPESIZE
  {
  }

  lemma RingPut(data: seq<byte>, nread: uint, nwrite: uint, stored: seq<byte>, taken: nat, x: byte)
    requires Ring(data, nread, nwrite, stored, taken) && |stored| < taken + PIPESIZE
    ensures Place(nwrite) == Place(|stored|)
    ensures Ring(data[Place(nwrite) := x], nread, (nwrite + 1) % WRAP, stored + [x], taken)
  {
    WrapPlace(|stored|);
    WrapNext(|stored|);
    hide Place;
    forall k: nat | taken <= k < |stored| ensures Place(k) != Place(|stored|) {
      PlaceDistinct(k, |stored|);
    }
  }

  lemma RingGet(data: seq<byte>, nread: uint, nwrite: uint, stored: seq<byte>, taken: nat)
    requires Ring(data, nread, nwrite, stored, taken) && taken < |stored|
    ensures data[Place(nread)] == stored[taken]
    ensures Ring(data, (nread + 1) % WRAP, nwrite, stored, taken + 1)
  {
    WrapPlace(taken);
    WrapNext(taken);
    hide Place;
  }

  // ---- whose bytes are whose --------------------------------------------------------------------------------

  /** The bytes of `stored` that process `t` put there, in order. */
  ghost function From(stored: seq<byte>, who: seq<int>, t: int): (s: seq<byte>)
    requires |stored| == |who|
  {
    if stored == [] then []
    else
      var n := |stored| - 1;
      From(stored[..n], who[..n], t) + if who[n] == t then [stored[n]] else []
  }

  lemma FromAppend(stored: seq<byte>, who: seq<int>, t: int, x: byte, w: int)
    requires |stored| == |who|
    ensures From(stored + [x], who + [w], t) == From(stored, who, t) + if w == t then [x] else []
  {
    assert (stored + [x])[..|stored|] == stored && (who + [w])[..|who|] == who;
  }

  lemma {:induction false} FromNobody(stored: seq<byte>, who: seq<int>, t: int)
    requires |stored| == |who| && t !in who
    ensures From(stored, who, t) == []
  {
    if stored != [] {
      FromNobody(stored[..|stored| - 1], who[..|stored| - 1], t);
    }
  }

  ghost predicate Honest(threads: map<int, Thread>, stored: seq<byte>, who: seq<int>) {
    && |stored| == |who|
    && (forall t :: t in who ==> t in threads)
    && (forall t :: t in threads ==>
          && (threads[t].Writer? || threads[t].Wrote? ==> threads[t].i <= |threads[t].src|)
          && From(stored, who, t) == Sent(threads[t]))
  }

  lemma HonestPut(threads: map<int, Thread>, stored: seq<byte>, who: seq<int>, t: int)
    requires Honest(threads, stored, who) && t in threads && threads[t].Writer? && threads[t].i < |threads[t].src|
    ensures var th := threads[t];
            Honest(threads[t := Writer(th.src, th.i + 1)], stored + [th.src[th.i]], who + [t])
  {
    var th := threads[t];
    var threads', stored', who' := threads[t := Writer(th.src, th.i + 1)], stored + [th.src[th.i]], who + [t];
    hide From;
    forall x | x in threads' ensures From(stored', who', x) == Sent(threads'[x]) {
      FromAppend(stored, who, x, th.src[th.i], t);
    }
  }

  lemma HonestIndex(threads: map<int, Thread>, stored: seq<byte>, who: seq<int>, t: int)
    requires Honest(threads, stored, who) && t in threads && threads[t].Writer?
    ensures threads[t].i <= |threads[t].src|
  {
  }

  lemma RingBound(data: seq<byte>, nread: uint, nwrite: uint, stored: seq<byte>, taken: nat)
    requires Ring(data, nread, nwrite, stored, taken)
    ensures |data| == PIPESIZE && taken <= |stored| <= taken + PIPESIZE
  {
  }

  // ---- the pipe ---------------------------------------------------------------------------------------------

  class Pipe {
    const data: array<byte>
    var nread: uint
    var nwrite: uint
    var readopen: bool
    var writeopen: bool
    /** The processes, those asleep on the pipe, and those killed. */
    var threads: map<int, Thread>
    var asleep: set<int>
    var killed: set<int>
    /** Every byte ever stored, who stored it, and every byte ever delivered. */
    ghost var stored: seq<byte>
    ghost var who: seq<int>
    ghost var delivered: seq<byte>

    /** What holds whenever the lock is free: first in first out, each writer's bytes in its own order. */
    ghost predicate Valid()
      reads this, data
    {
      && Ring(data[..], nread, nwrite, stored, |delivered|)
      && delivered <= stored
      && Honest(threads, stored, who)
      && (forall t :: t in asleep ==> t in threads && (threads[t].Writer? || threads[t].Reader?))
    }

    /** No wakeup was lost: whoever sleeps still has reason to. */
    ghost predicate Settled()
      reads this
    {
      && (forall t :: t in asleep && t in threads && threads[t].Reader? ==> |stored| == |delivered| && writeopen)
      && (forall t :: t in asleep && t in threads && threads[t].Writer? ==>
          |stored| == |delivered| + PIPESIZE
          && readopen)
    }

    /** Whoever is inside a call keeps its end of the pipe open. */
    ghost predicate Open()
      reads this
    {
      && (forall t :: t in threads && threads[t].Reader? ==> readopen)
      && (forall t :: t in threads && threads[t].Writer? ==> writeopen)
    }

    /** pipealloc */
    constructor ()
      ensures Valid() && fresh(data) && Settled() && Open() && readopen && writeopen && threads == map[]
              && stored == [] && killed == {}
    {
      data := new byte[PIPESIZE];
      nread, nwrite := 0, 0;
      readopen, writeopen := true, true;
      threads, asleep, killed := map[], {}, {};
      stored, who, delivered := [], [], [];
    }

    /** wakeup of the readers, or of the writers. */
    method Wakeup(readers: bool)
      modifies this`asleep
      ensures asleep == set t | t in old(asleep) && !(t in threads && threads[t].Reader? == readers)
    {
      asleep := set t | t in asleep && !(t in threads && threads[t].Reader? == readers);
    }

    /** A process calls pipewrite or piperead. */
    method Enter(t: int, th: Thread)
      requires Valid() && t !in threads && ((th.Writer? && th.i == 0 && writeopen) || (th.Reader? && readopen))
      modifies this`threads
      ensures Valid() && threads == old(threads)[t := th]
      ensures old(Settled()) ==> Settled()
      ensures old(Open()) ==> Open()
    {
      FromNobody(stored, who, t);
      threads := threads[t := th];
    }

    /** kill: the process wakes up and will notice. */
    method Kill(t: int)
      requires Valid()
      modifies this`killed, this`asleep
      ensures Valid() && (old(Settled()) ==> Settled())
      ensures killed == old(killed) + {t} && asleep == old(asleep) - {t}
    {
      killed := killed + {t};
      asleep := asleep - {t};
    }

    /** pipeclose, which fileclose calls when no process has that end open any more. */
    method Close(writable: bool)
      requires Valid() && Open()
      requires forall t :: t in threads ==> if writable then !threads[t].Writer? else !threads[t].Reader?
      modifies this`readopen, this`writeopen, this`asleep
      ensures Valid() && Open() && (old(Settled()) ==> Settled())
      ensures if writable then !writeopen && readopen == old(readopen) else !readopen && writeopen == old(writeopen)
      ensures forall t :: t in asleep <==> t in old(asleep) && !(t in threads && threads[t].Reader? == writable)
    {
      if writable {
        writeopen := false;
        Wakeup(true);
      } else {
        readopen := false;
        Wakeup(false);
      }
    }

    /** The next byte goes into the ring. */
    method Put(t: int)
      requires Valid() && t in threads && threads[t].Writer? && threads[t].i < |threads[t].src|
      requires |stored| < |delivered| + PIPESIZE
      modifies data, this`nwrite, this`threads, this`stored, this`who
      ensures Valid()
      ensures threads == old(threads)[t := Writer(old(threads)[t].src, old(threads)[t].i + 1)]
      ensures stored == old(stored) + [old(threads)[t].src[old(threads)[t].i]]
    {
      hide Ring, Place, From;
      var th := threads[t];
      RingPut(data[..], nread, nwrite, stored, |delivered|, th.src[th.i]);
      RingBound(data[..], nread, nwrite, stored, |delivered|);
      ghost var was := data[..];
      data[Place(nwrite)] := th.src[th.i];
      assert data[..] == was[Place(nwrite) := th.src[th.i]];
      nwrite := (nwrite + 1) % WRAP;
      HonestPut(threads, stored, who, t);
      stored, who := stored + [th.src[th.i]], who + [t];
      threads := threads[t := Writer(th.src, th.i + 1)];
    }

    /** A killed writer with more bytes than an empty pipe holds fills it and returns without waking the readers. */
    ghost predicate LosesWakeup(t: int)
      requires t in threads && threads[t].Writer?
      reads this
    {
      && t in killed && |threads[t].src| - threads[t].i > PIPESIZE
      && exists x :: x in asleep && x in threads && threads[x].Reader?
    }

    /** pipewrite, up to the next sleep or to its return: the bytes stored are the next ones of its argument. */
    method WriteStep(t: int)
      requires Valid() && Open() && t in threads && threads[t].Writer? && t !in asleep
      modifies data, this`nwrite, this`threads, this`asleep, this`stored, this`who
      ensures Valid() && Open() && delivered == old(delivered)
      ensures t in threads && forall x :: x in threads && x != t ==> x in old(threads) && threads[x] == old(threads)[x]
      ensures threads[t].Writer? || threads[t].Wrote?
      ensures old(threads)[t].i <= threads[t].i <= |threads[t].src| && threads[t].src == old(threads)[t].src
      ensures stored == old(stored) + threads[t].src[old(threads)[t].i..threads[t].i]
      ensures threads[t].Writer? ==> t in asleep && |stored| == |delivered| + PIPESIZE && readopen && t !in killed
      ensures threads[t].Wrote? ==>
                if threads[t].i == |threads[t].src| then threads[t].r == |threads[t].src|
                else threads[t].r == -1 && |stored| == |delivered| + PIPESIZE && (!readopen || t in killed)
      ensures old(Settled()) ==> (Settled() <==> !old(LosesWakeup(t)))
    {
      hide Ring, Honest;
      Fill(t);
      var th := threads[t];
      if th.i < |th.src| {
        if !readopen || t in killed {
          Return(t, Wrote(th.src, th.i, -1));
          return;
        }
        Wakeup(true);
        asleep := asleep + {t};
        return;
      }
      Wakeup(true);
      Return(t, Wrote(th.src, th.i, |th.src|));
    }

    /** The copying loop of pipewrite, until it meets a full pipe. */
    method Fill(t: int)
      requires Valid() && t in threads && threads[t].Writer?
      modifies data, this`nwrite, this`threads, this`stored, this`who
      ensures Valid() && t in threads && threads[t].Writer? && threads[t].src == old(threads)[t].src
      ensures threads == old(threads)[t := threads[t]]
      ensures old(threads)[t].i <= threads[t].i <= |threads[t].src|
      ensures stored == old(stored) + threads[t].src[old(threads)[t].i..threads[t].i]
      ensures threads[t].i < |threads[t].src| ==> |stored| == |delivered| + PIPESIZE
      ensures |stored| <= |delivered| + PIPESIZE
    {
      hide Ring, Honest;
      var src := threads[t].src;
      ghost var i0 := threads[t].i;
      HonestIndex(threads, stored, who, t);
      RingBound(data[..], nread, nwrite, stored, |delivered|);
      while threads[t].i < |src|
        invariant Valid() && t in threads && threads[t].Writer? && threads[t].src == src && i0 <= threads[t].i <= |src|
        invariant threads == old(threads)[t := threads[t]]
        invariant stored == old(stored) + src[i0..threads[t].i] && |stored| <= |delivered| + PIPESIZE
      {
        RingTests(data[..], nread, nwrite, stored, |delivered|);
        RingBound(data[..], nread, nwrite, stored, |delivered|);
        if nwrite == (nread + PIPESIZE) % WRAP {
          return;
        }
        Put(t);
      }
    }

    /** The process leaves the call. */
    method Return(t: int, th: Thread)
      requires Valid() && t in threads && t !in asleep && (th.Wrote? || th.Read?)
      requires if th.Wrote? then threads[t] == Writer(th.src, th.i) else threads[t].Reader?
      modifies this`threads
      ensures Valid() && (old(Open()) ==> Open()) && threads == old(threads)[t := th]
    {
      hide Ring, From;
      threads := threads[t := th];
    }

    /** piperead, up to the next sleep or to its return: it delivers the oldest bytes not yet delivered. */
    method ReadStep(t: int)
      requires Valid() && Open() && t in threads && threads[t].Reader? && t !in asleep
      modifies this`nread, this`threads, this`asleep, this`delivered
      ensures Valid() && Open() && old(delivered) <= delivered
      ensures t in threads && forall x :: x in threads && x != t ==> x in old(threads) && threads[x] == old(threads)[x]
      ensures threads[t].Reader? || threads[t].Read?
      ensures threads[t].Reader? ==>
                && threads[t] == old(threads)[t] && t in asleep && delivered == old(delivered)
                && stored == delivered && writeopen && t !in killed
      ensures threads[t].Read? ==>
                if threads[t].r == -1 then t in killed && delivered == old(delivered) == stored && threads[t].got == []
                else
                  && threads[t].r == |threads[t].got| && delivered == old(delivered) + threads[t].got
                  && (stored != old(delivered) || !writeopen)
                  && threads[t].r == if |stored| - |old(delivered)| < old(threads)[t].n then |stored| - |old(delivered)|
                                     else old(threads)[t].n
      ensures old(Settled()) ==> Settled()
    {
      hide Ring, Honest;
      var n := threads[t].n;
      RingTests(data[..], nread, nwrite, stored, |delivered|);
      if nread == nwrite && writeopen {
        if t in killed {
          Return(t, Read(-1, []));
          return;
        }
        asleep := asleep + {t};
        return;
      }
      var got := [];
      while |got| < n
        invariant Valid() && |got| <= n && delivered == old(delivered) + got
        invariant threads == old(threads) && asleep == old(asleep)
      {
        RingTests(data[..], nread, nwrite, stored, |delivered|);
        if nread == nwrite {
          break;
        }
        RingGet(data[..], nread, nwrite, stored, |delivered|);
        RingBound(data[..], nread, nwrite, stored, |delivered|);
        var x := data[Place(nread)];
        nread := (nread + 1) % WRAP;
        delivered := delivered + [x];
        got := got + [x];
      }
      RingBound(data[..], nread, nwrite, stored, |delivered|);
      Wakeup(false);
      Return(t, Read(|got|, got));
    }

    /** A reader and a writer never sleep on the pipe at the same time. */
    lemma NotBothAsleep(r: int, w: int)
      requires Settled() && r in asleep && w in asleep && r in threads && w in threads
      ensures !(threads[r].Reader? && threads[w].Writer?)
    {
    }
  }

  /** A new pipe with one process asleep in piperead. */
  method SleepingReader() returns (p: Pipe)
    ensures fresh(p) && fresh(p.data) && p.Valid() && p.Settled() && p.Open() && p.writeopen && p.stored == []
    ensures p.threads == map[1 := Reader(1)] && 1 in p.asleep
  {
    p := new Pipe();
    p.Enter(1, Reader(1));
    p.ReadStep(1);
  }

  /** A run that strands it: a killed writer of 513 bytes fills the pipe and returns. */
  method StrandedReader() returns (p: Pipe)
    ensures fresh(p) && p.Valid() && !p.Settled()
    ensures 1 in p.threads && p.threads[1].Reader? && 1 in p.asleep && |p.stored| == |p.delivered| + PIPESIZE
  {
    p := SleepingReader();
    p.Enter(2, Writer(seq(PIPESIZE + 1, _ => 0), 0));
    p.Kill(2);
    p.WriteStep(2);
  }
}
