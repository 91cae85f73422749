/** The redo log (log.c) over the buffer cache: transactions, commit and start-up recovery.

    `commits` lists every file system state committed so far, and `epoch[k]` says which of them the k-th
    disk state of the run recovers to. */
module Log {
  import opened Bytes
  import opened BufferCache
  import opened Recovery

  /** With no more buffers than this held or pinned, a log of LOGSIZE blocks and a cache of NBUF buffers suffice. */
  const MAXLOAD: nat := 8

  ghost function Targets(log: Area, secs: seq<uint>): (s: set<Addr>) {
    set i | 0 <= i < |secs| :: log.To(secs[i])
  }

  lemma TargetsSize(log: Area, secs: seq<uint>)
    ensures |Targets(log, secs)| <= |secs|
  {
    if secs != [] {
      var k := |secs| - 1;
      TargetsSize(log, secs[..k]);
      assert Targets(log, secs) == Targets(log, secs[..k]) + {log.To(secs[k])};
    }
  }

  lemma TargetsDistinct(log: Area, secs: seq<uint>)
    requires forall i, j :: 0 <= i < j < |secs| ==> secs[i] != secs[j]
    ensures |Targets(log, secs)| == |secs|
  {
    if secs != [] {
      var k := |secs| - 1;
      TargetsDistinct(log, secs[..k]);
      assert Targets(log, secs) == Targets(log, secs[..k]) + {log.To(secs[k])};
    }
  }

  lemma TargetsTail(log: Area, secs: seq<uint>, k: nat)
    requires k < |secs|
    ensures Targets(log, secs[k..]) == {log.To(secs[k])} + Targets(log, secs[k + 1..])
    ensures |Targets(log, secs[k..])| <= |secs|
  {
    TargetsSize(log, secs[k..]);
    var t := secs[k..];
    assert t[0] == secs[k];
    forall a | a in Targets(log, secs[k + 1..]) ensures a in Targets(log, t) {
      var i :| 0 <= i < |secs[k + 1..]| && a == log.To(secs[k + 1..][i]);
      assert t[i + 1] == secs[k + 1..][i];
    }
    forall a | a in Targets(log, t) && a != log.To(t[0]) ensures a in Targets(log, secs[k + 1..]) {
      var i :| 0 <= i < |t| && a == log.To(t[i]);
      assert secs[k + 1..][i - 1] == t[i];
    }
  }

  /** Every disk state the run has produced recovers to a committed file system, and never to an older one
      than an earlier disk state did. */
  ghost predicate Durable(log: Area, trace: seq<Disk>, commits: seq<Image>, epoch: seq<nat>) {
    && |epoch| == |trace| > 0 && |commits| > 0
    && (forall k :: 0 <= k < |trace| ==>
          Recoverable(log, trace[k]) && epoch[k] < |commits| && AfterCrash(log, trace[k]) == commits[epoch[k]])
    && (forall j, k :: 0 <= j < k < |epoch| ==> epoch[j] <= epoch[k])
    && epoch[|epoch| - 1] == |commits| - 1
  }

  lemma DurableSame(log: Area, trace: seq<Disk>, commits: seq<Image>, epoch: seq<nat>, d: Disk)
    requires Durable(log, trace, commits, epoch)
    requires Recoverable(log, d) && AfterCrash(log, d) == commits[|commits| - 1]
    ensures Durable(log, trace + [d], commits, epoch + [|commits| - 1])
  {
    hide Recoverable, AfterCrash;
  }

  function Repeat(x: nat, k: nat): (s: seq<nat>)
    ensures |s| == k
  {
    seq(k, _ => x)
  }

  lemma RepeatCons(x: nat, k: nat)
    ensures [x] + Repeat(x, k) == Repeat(x, k + 1)
  {
  }

  lemma DurableStart(log: Area, d: Disk)
    requires Recoverable(log, d)
    ensures Durable(log, [d], [AfterCrash(log, d)], [0])
  {
  }

  lemma NoTargets(log: Area, secs: seq<uint>)
    requires secs == []
    ensures Targets(log, secs) == {}
  {
  }

  lemma DurableRun(log: Area, trace: seq<Disk>, commits: seq<Image>, epoch: seq<nat>, ds: seq<Disk>)
    requires Durable(log, trace, commits, epoch)
    requires forall k :: 0 <= k < |ds| ==> Recoverable(log, ds[k]) && AfterCrash(log, ds[k]) == commits[|commits| - 1]
    ensures Durable(log, trace + ds, commits, epoch + Repeat(|commits| - 1, |ds|))
  {
    hide Recoverable, AfterCrash;
  }

  lemma DurableCommit(log: Area, trace: seq<Disk>, commits: seq<Image>, epoch: seq<nat>, d: Disk)
    requires Durable(log, trace, commits, epoch) && Recoverable(log, d)
    ensures Durable(log, trace + [d], commits + [AfterCrash(log, d)], epoch + [|commits|])
  {
    hide Recoverable, AfterCrash;
  }

  /** Crash atomicity over a whole run: cut the power after any sector write, let recovery itself be cut off any number
      of times, and the recovery that completes leaves the home sectors of exactly one committed image. */
  lemma CrashAnywhere(log: Area, trace: seq<Disk>, commits: seq<Image>, epoch: seq<nat>, k: nat, ds: seq<Disk>)
    requires Durable(log, trace, commits, epoch) && k < |trace|
    requires CrashChain(log, ds) && ds[0] == trace[k]
    ensures var last := ds[|ds| - 1];
            Homes(log, RecoveryDisk(log, last, |HeaderSectors(last[log.Head()])| + 1)) == commits[epoch[k]]
  {
    hide Recoverable, RecoveryDisk, AfterCrash, Homes, CutOff;
    RepeatedCrashes(log, ds);
  }

  /** Between log_write and commit: the header on disk is empty, so the log blocks do not count yet. Except for the
      sectors in `pending`, which a holder has changed but not yet log_written, clients see the log block of every
      listed sector and the disk in every other. */
  ghost predicate Uncommitted(log: Area, secs: seq<uint>, disk: Disk, flat: Disk, pending: set<Addr>) {
    && Formatted(log, disk) && Word(disk[log.Head()], 0) == 0
    && Loggable(log, disk, secs)
    && flat.Keys == disk.Keys
    && (forall i :: 0 <= i < |secs| && log.To(secs[i]) !in pending ==> flat[log.To(secs[i])] == disk[log.Slot(i)])
    && (forall a :: a in disk && a !in pending && a !in Targets(log, secs) ==> flat[a] == disk[a])
  }

  /** The log's whole promise: nothing uncommitted has reached a home sector, and every disk so far recovers to a
      commit. */
  ghost predicate Sound(log: Area, secs: seq<uint>, disk: Disk, flat: Disk, pending: set<Addr>,
                        trace: seq<Disk>, commits: seq<Image>, epoch: seq<nat>) {
    && Uncommitted(log, secs, disk, flat, pending)
    && |commits| > 0 && Durable(log, trace, commits, epoch)
    && Homes(log, disk) == commits[|commits| - 1]
  }

  /** The list of logged sectors once log_write has put sector `s` at index `i`. */
  ghost function Append(secs: seq<uint>, i: nat, s: uint): (r: seq<uint>)
    requires i <= |secs|
  {
    if i < |secs| then secs else secs + [s]
  }

  /** `i` is where log_write's search for sector `s` stops. */
  ghost predicate Entry(secs: seq<uint>, i: nat, s: nat) {
    && i <= |secs|
    && (forall j :: 0 <= j < i ==> secs[j] != s)
    && (i < |secs| ==> secs[i] == s)
  }

  lemma AppendTargets(log: Area, secs: seq<uint>, a: Addr, i: nat)
    requires a.dev == log.dev && a.sector <= UINT_MAX && Entry(secs, i, a.sector)
    ensures a in Targets(log, secs) <==> i < |secs|
    ensures Append(secs, i, a.sector) == if a in Targets(log, secs) then secs else secs + [a.sector]
    ensures Targets(log, Append(secs, i, a.sector)) == Targets(log, secs) + {a}
  {
    var secs' := Append(secs, i, a.sector);
    assert secs'[i] == a.sector && log.To(secs'[i]) == a;
    forall x | x in Targets(log, secs) ensures x in Targets(log, secs') {
      var j :| 0 <= j < |secs| && x == log.To(secs[j]);
      assert secs'[j] == secs[j];
    }
  }

  lemma AppendKeeps(log: Area, secs: seq<uint>, disk: Disk, flat: Disk, pending: set<Addr>, a: Addr, i: nat)
    requires Uncommitted(log, secs, disk, flat, pending)
    requires log.Home(a) && a in disk && a.sector <= UINT_MAX
    requires |secs| < LOGSIZE && |secs| < log.size - 1 && Entry(secs, i, a.sector)
    ensures log.Slot(i) in disk && log.Slot(i) in flat && !log.Home(log.Slot(i))
    ensures log.Slot(i) !in Targets(log, secs)
    ensures Uncommitted(log, Append(secs, i, a.sector), disk[log.Slot(i) := flat[a]], flat[log.Slot(i) := flat[a]],
            pending - {a})
  {
    AppendTargets(log, secs, a, i);
    UncommittedSlots(log, secs, disk, flat, pending);
    hide Targets;
    assert Append(secs, i, a.sector)[i] == a.sector;
  }

  lemma ModifyHeld(log: Area, secs: seq<uint>, disk: Disk, flat: Disk, pending: set<Addr>, a: Addr, d: block)
    requires Uncommitted(log, secs, disk, flat, pending) && log.Home(a) && a in flat
    ensures Uncommitted(log, secs, disk, flat[a := d], pending + {a})
    ensures Homes(log, flat[a := d]) == Homes(log, flat)[a.sector := d]
  {
  }

  lemma ReleaseSaved(log: Area, secs: seq<uint>, disk: Disk, flat: Disk, pending: set<Addr>, a: Addr)
    requires Uncommitted(log, secs, disk, flat, pending) && a in disk && a !in pending
    ensures a in Targets(log, secs) || flat[a] == disk[a]
  {
  }

  lemma UncommittedSlots(log: Area, secs: seq<uint>, disk: Disk, flat: Disk, pending: set<Addr>)
    requires Uncommitted(log, secs, disk, flat, pending)
    ensures log.dev != NODEV && log.Head() !in Targets(log, secs)
    ensures forall j: nat :: j < log.size - 1 ==>
            log.Slot(j) in disk && !log.Home(log.Slot(j))
            && log.Slot(j) !in Targets(log, secs)
  {
  }

  lemma UncommittedRecovers(log: Area, secs: seq<uint>, disk: Disk, flat: Disk, pending: set<Addr>)
    requires Uncommitted(log, secs, disk, flat, pending)
    ensures Recoverable(log, disk) && AfterCrash(log, disk) == Homes(log, disk)
  {
    EmptyHeader(log, disk);
  }

  /** log_write keeps the promise and changes nothing that clients see. */
  lemma SoundAppend(log: Area, secs: seq<uint>, disk: Disk, flat: Disk, pending: set<Addr>, trace: seq<Disk>,
                    commits: seq<Image>, epoch: seq<nat>, a: Addr, i: nat)
    requires Sound(log, secs, disk, flat, pending, trace, commits, epoch)
    requires log.Home(a) && a in disk && a.sector <= UINT_MAX
    requires |secs| < LOGSIZE && |secs| < log.size - 1 && Entry(secs, i, a.sector)
    ensures a in flat && log.Slot(i) !in Targets(log, secs) && |commits| > 0
    ensures Sound(log, Append(secs, i, a.sector), disk[log.Slot(i) := flat[a]], flat[log.Slot(i) := flat[a]],
            pending - {a},
                  trace + [disk[log.Slot(i) := flat[a]]], commits, epoch + [|commits| - 1])
    ensures Homes(log, flat[log.Slot(i) := flat[a]]) == Homes(log, flat)
  {
    hide Homes, Durable, Uncommitted, Recoverable, AfterCrash, Append;
    UncommittedParts(log, secs, disk, flat, pending);
    AppendKeeps(log, secs, disk, flat, pending, a, i);
    var disk', flat', secs' := disk[log.Slot(i) := flat[a]], flat[log.Slot(i) := flat[a]], Append(secs, i, a.sector);
    SlotWriteHomes(log, disk, log.Slot(i), flat[a]);
    SlotWriteHomes(log, flat, log.Slot(i), flat[a]);
    UncommittedRecovers(log, secs', disk', flat', pending - {a});
    DurableSame(log, trace, commits, epoch, disk');
  }

  lemma SoundModify(log: Area, secs: seq<uint>, disk: Disk, flat: Disk, pending: set<Addr>, trace: seq<Disk>,
                    commits: seq<Image>, epoch: seq<nat>, a: Addr, d: block)
    requires Sound(log, secs, disk, flat, pending, trace, commits, epoch) && log.Home(a) && a in flat
    ensures Sound(log, secs, disk, flat[a := d], pending + {a}, trace, commits, epoch)
    ensures Homes(log, flat[a := d]) == Homes(log, flat)[a.sector := d]
  {
    hide Durable, Uncommitted;
    ModifyHeld(log, secs, disk, flat, pending, a, d);
  }

  lemma SoundFacts(log: Area, secs: seq<uint>, disk: Disk, flat: Disk, pending: set<Addr>, trace: seq<Disk>,
                   commits: seq<Image>, epoch: seq<nat>)
    requires Sound(log, secs, disk, flat, pending, trace, commits, epoch)
    ensures Uncommitted(log, secs, disk, flat, pending) && |commits| > 0 && Durable(log, trace, commits, epoch)
    ensures log.dev != NODEV && log.Head() in disk && log.Head() !in Targets(log, secs)
    ensures forall j: nat :: j < log.size - 1 ==> log.Slot(j) in disk && !log.Home(log.Slot(j))
  {
    UncommittedParts(log, secs, disk, flat, pending);
    UncommittedSlots(log, secs, disk, flat, pending);
  }

  lemma InstallNothing(log: Area, d: Disk, secs: seq<uint>)
    requires Formatted(log, d) && Loggable(log, d, secs)
    ensures Loggable(log, d, secs[..0])
    ensures Installed(log, d, secs[..0]) == d && InstallRun(log, d, secs[..0]) == [] && Targets(log, []) == {}
  {
  }

  lemma PinRoom(log: Area, secs: seq<uint>, k: nat, pinned: set<Addr>)
    requires k < |secs| && pinned <= Targets(log, secs[k..]) && (pinned == {} || |secs| < NBUF)
    requires forall i :: 0 <= i < |secs| ==> log.To(secs[i]) != log.Slot(k)
    ensures log.Slot(k) !in pinned
    ensures |pinned + {log.Slot(k), log.To(secs[k])}| <= NBUF
  {
    TargetsTail(log, secs, k);
    var t := Targets(log, secs[k..]);
    if pinned == {} {
      assert pinned + {log.Slot(k), log.To(secs[k])} == {log.Slot(k), log.To(secs[k])};
    } else {
      SubsetSize(pinned + {log.Slot(k), log.To(secs[k])}, t + {log.Slot(k)});
    }
  }

  lemma UncommittedParts(log: Area, secs: seq<uint>, disk: Disk, flat: Disk, pending: set<Addr>)
    requires Uncommitted(log, secs, disk, flat, pending)
    ensures Formatted(log, disk) && Loggable(log, disk, secs) && |secs| <= LOGSIZE
    ensures log.Head() in disk && flat.Keys == disk.Keys
  {
  }

  lemma CommitStateAt(log: Area, secs: seq<uint>, disk: Disk, flat: Disk, s: nat)
    requires Uncommitted(log, secs, disk, flat, {}) && s < log.start && log.To(s) in disk
    ensures var d := disk[log.Head() := HeaderBlock(disk[log.Head()], secs)];
            Recoverable(log, d) && s in AfterCrash(log, d) && AfterCrash(log, d)[s] == flat[log.To(s)]
  {
    CommitPointAt(log, disk, secs, s);
    hide AfterCrash, Recoverable, HeaderBlock;
    if s in secs {
      var i :| 0 <= i < |secs| && secs[i] == s;
    } else {
      assert log.To(s) !in Targets(log, secs);
    }
  }

  /** Writing the header commits exactly what clients see. */
  lemma CommitState(log: Area, secs: seq<uint>, disk: Disk, flat: Disk)
    requires Uncommitted(log, secs, disk, flat, {})
    ensures log.Head() in disk
    ensures var d := disk[log.Head() := HeaderBlock(disk[log.Head()], secs)];
            Recoverable(log, d) && HeaderSectors(d[log.Head()]) == secs && AfterCrash(log, d) == Homes(log, flat)
  {
    hide AfterCrash, Recoverable, HeaderBlock, HeaderSectors, Targets, Loggable, Formatted, Uncommitted;
    UncommittedParts(log, secs, disk, flat, {});
    var d := disk[log.Head() := HeaderBlock(disk[log.Head()], secs)];
    CommitPoint(log, disk, secs);
    forall s: nat | s < log.start && log.To(s) in disk ensures AfterCrash(log, d)[s] == flat[log.To(s)] {
      CommitStateAt(log, secs, disk, flat, s);
    }
  }

  /** The state between transactions. */
  lemma FreshlyRecovered(log: Area, d: Disk)
    requires Recoverable(log, d)
    ensures var r := RecoveryDisk(log, d, |HeaderSectors(d[log.Head()])| + 1);
            Uncommitted(log, [], r, r, {}) && Homes(log, r) == AfterCrash(log, d)
  {
    RecoveryCompletes(log, d);
  }

  lemma FormattedHead(log: Area, d: Disk)
    requires Formatted(log, d)
    ensures log.Head() in d && log.dev != NODEV && !log.Home(log.Head())
  {
  }

  class Log {
    const cache: Cache
    const area: Area
    var n: nat
    var sector: seq<uint>
    var busy: bool
    ghost var commits: seq<Image>
    ghost var epoch: seq<nat>
    ghost var pending: set<Addr>

    /** The sectors logged by the open transaction, in log order. */
    ghost function Logged(): seq<uint>
      reads this
      requires n <= |sector|
    {
      sector[..n]
    }

    /** The file system as clients see it. */
    ghost function View(): Image
      reads this, cache
    {
      Homes(area, cache.flat)
    }

    ghost predicate Valid()
      reads this, cache
    {
      && cache.Valid()
      && |sector| == LOGSIZE && n <= LOGSIZE
      && (!busy ==> n == 0)
      && pending <= cache.Held()
      && cache.Pinned() == Targets(area, Logged())
      && (forall a :: a in cache.Held() ==> area.Home(a))
      && Sound(area, Logged(), cache.disk, cache.flat, pending, cache.trace, commits, epoch)
    }

    /** write_head: copy the in-memory sector list over the front of the header block and write it. */
    method WriteHead()
      requires cache.Valid() && n <= |sector| <= LOGSIZE && area.Head() in cache.disk && area.dev != NODEV
      requires area.Head() !in cache.Held() && area.Head() !in cache.Pinned()
      requires |cache.Held() + cache.Pinned()| < NBUF
      modifies cache
      ensures cache.Valid() && cache.Held() == old(cache.Held()) && cache.Pinned() == old(cache.Pinned())
      ensures cache.disk == old(cache.disk)[area.Head() := HeaderBlock(old(cache.disk)[area.Head()], Logged())]
      ensures forall a :: a in cache.flat && a != area.Head() ==>
              a in old(cache.flat)
              && cache.flat[a] == old(cache.flat)[a]
      ensures cache.trace == old(cache.trace) + [cache.disk]
      ensures Heads(cache.disk[area.Head()], n, sector)
    {
      hide Cache.Valid, Cache.Held, Cache.Pinned, HeaderBlock, Heads;
      cache.Facts();
      var b := cache.Bread(area.Head());
      var hb := FillHeader(cache.bufs[b].data);
      HeaderHeads(cache.bufs[b].data, n, sector);
      cache.WriteOut(b, area.Head(), hb);
    }

    method FillHeader(b: block) returns (hb: block)
      requires n <= |sector| <= LOGSIZE
      ensures hb == HeaderBlock(b, Logged())
    {
      hb := PutWord(b, 0, n);
      var i := 0;
      while i < n
        invariant 0 <= i <= n
        invariant hb == PutSectors(PutWord(b, 0, n), sector[..i])
      {
        assert sector[..i + 1][..i] == sector[..i];
        hb := PutWord(hb, 1 + i, sector[i]);
        i := i + 1;
      }
    }

    /** One round of install_trans: copy log block `tail` to its home sector. */
    method InstallOne(tail: nat)
      requires cache.Valid() && tail < |sector| && area.dev != NODEV
      requires var slot, home := area.Slot(tail), area.To(sector[tail]);
               && slot != home && slot in cache.disk && home in cache.disk && cache.Held() == {}
                   && slot !in cache.Pinned()
               && |cache.Pinned() + {slot, home}| <= NBUF
      modifies cache
      ensures cache.Valid() && cache.Held() == {} && cache.Pinned() == old(cache.Pinned()) - {area.To(sector[tail])}
      ensures cache.disk == old(cache.disk)[area.To(sector[tail]) := old(cache.disk)[area.Slot(tail)]]
      ensures cache.trace == old(cache.trace) + [cache.disk]
    {
      hide Cache.Valid, Cache.Held, Cache.Pinned;
      ghost var slot, home := area.Slot(tail), area.To(sector[tail]);
      cache.Facts();
      assert {} + old(cache.Pinned()) + {slot} <= cache.Pinned() + {slot, home};
      SubsetSize({} + old(cache.Pinned()) + {slot}, cache.Pinned() + {slot, home});
      var lbuf := cache.Bread(area.Slot(tail));
      assert cache.Held() + cache.Pinned() + {home} == cache.Pinned() + {slot, home};
      var dbuf := cache.Bread(area.To(sector[tail]));
      CopyBlock(lbuf, dbuf, slot, home);
    }

    /** The log block's data is copied to the home buffer and written, and both buffers are released. */
    method CopyBlock(lbuf: nat, dbuf: nat, ghost slot: Addr, ghost home: Addr)
      requires cache.Valid() && cache.Holds(lbuf, slot) && cache.Holds(dbuf, home) && lbuf != dbuf && slot != home
      requires slot in cache.flat && slot in cache.disk && cache.flat[slot] == cache.disk[slot]
      modifies cache
      ensures cache.Valid()
      ensures cache.Held() == old(cache.Held()) - {slot, home} && cache.Pinned() == old(cache.Pinned()) - {home}
      ensures cache.disk == old(cache.disk)[home := old(cache.disk)[slot]]
              && cache.trace == old(cache.trace) + [cache.disk]
    {
      hide Cache.Valid, Cache.Held, Cache.Pinned, Index, Without;
      cache.HeldData(lbuf, slot);
      cache.SetData(dbuf, cache.bufs[lbuf].data);
      cache.Bwrite(dbuf);
      cache.Brelse(lbuf);
      cache.Brelse(dbuf);
    }

    /** install_trans: copy every listed log block home, in log order. */
    method InstallTrans()
      requires cache.Valid() && n <= |sector| && cache.Held() == {}
      requires Formatted(area, cache.disk) && Loggable(area, cache.disk, Logged())
      requires cache.Pinned() <= Targets(area, Logged())
      requires cache.Pinned() == {} || n < NBUF
      modifies cache
      ensures cache.Valid() && cache.Held() == {} && cache.Pinned() == {}
      ensures cache.disk == Installed(area, old(cache.disk), Logged())
      ensures cache.trace == old(cache.trace) + InstallRun(area, old(cache.disk), Logged())
    {
      hide Cache.Valid, Cache.Held, Cache.Pinned, Installed, Targets, Loggable, Formatted, InstallRun;
      ghost var d, secs := cache.disk, Logged();
      var tail := 0;
      assert secs[..n] == secs[0..] == secs;
      InstallNothing(area, d, secs);
      while tail < n
        invariant 0 <= tail <= n
        invariant Loggable(area, d, secs[..tail])
        invariant cache.Valid() && cache.Held() == {} && cache.Pinned() <= Targets(area, secs[tail..])
        invariant cache.Pinned() == {} || n < NBUF
        invariant cache.disk == Installed(area, d, secs[..tail])
        invariant cache.trace == old(cache.trace) + InstallRun(area, d, secs[..tail])
      {
        LoggableAt(area, d, secs, tail);
        InstallNext(area, d, secs, tail);
        TargetsTail(area, secs, tail);
        PinRoom(area, secs, tail, cache.Pinned());
        InstallOne(tail);
        tail := tail + 1;
      }
      assert secs[n..] == [];
    }

    /** The end of both commit_trans and recover_from_log: install what the header on disk lists, then clear it. */
    method Finish()
      requires cache.Valid() && n <= |sector| == LOGSIZE && cache.Held() == {}
      requires Recoverable(area, cache.disk) && HeaderSectors(cache.disk[area.Head()]) == Logged()
      requires cache.Pinned() <= Targets(area, Logged())
      requires cache.Pinned() == {} || n < NBUF
      modifies cache, this`n
      ensures cache.Valid() && cache.Held() == {} && cache.Pinned() == {} && n == 0
      ensures cache.disk == RecoveryDisk(area, old(cache.disk), old(n) + 1)
      ensures cache.trace == old(cache.trace) + RecoveryRun(area, old(cache.disk))
    {
      hide Cache.Valid, Cache.Held, Cache.Pinned, Installed, Targets, Loggable, Formatted, InstallRun, HeaderBlock;
      InstalledLogArea(area, cache.disk, Logged());
      FormattedHead(area, cache.disk);
      InstallTrans();
      n := 0;
      assert Logged() == [];
      WriteHead();
    }

    /** read_head: the sector list that the header on disk holds. */
    method ReadHead()
      requires cache.Valid() && cache.Held() == {} && cache.Pinned() == {} && area.dev != NODEV && |sector| == LOGSIZE
      requires area.Head() in cache.disk && Word(cache.disk[area.Head()], 0) <= LOGSIZE
      modifies cache, this`n, this`sector
      ensures cache.Valid() && cache.Held() == {} && cache.Pinned() == {}
      ensures cache.disk == old(cache.disk) && cache.trace == old(cache.trace)
      ensures |sector| == LOGSIZE && n <= LOGSIZE && Logged() == HeaderSectors(cache.disk[area.Head()])
    {
      hide Cache.Valid, Cache.Held, Cache.Pinned, Index, Without;
      cache.Facts();
      var b := cache.Bread(area.Head());
      var lh := cache.bufs[b].data;
      n := Word(lh, 0);
      var i := 0;
      while i < n
        invariant 0 <= i <= n == Word(lh, 0) && |sector| == LOGSIZE
        invariant sector[..i] == HeaderSectors(lh)[..i]
        modifies this`sector
      {
        sector := sector[i := Word(lh, 1 + i)];
        i := i + 1;
      }
      cache.Brelse(b);
    }

    /** recover_from_log, on the disk a crash has left. */
    method RecoverFromLog()
      requires cache.Valid() && cache.Held() == {} && cache.Pinned() == {} && |sector| == LOGSIZE && !busy
      requires Recoverable(area, cache.disk) && cache.trace == [cache.disk]
      modifies cache, this
      ensures Valid() && !busy
      ensures cache.trace == [old(cache.disk)] + RecoveryRun(area, old(cache.disk))
      ensures commits == [AfterCrash(area, old(cache.disk))]
    {
      hide Cache.Valid, Cache.Held, Cache.Pinned, AfterCrash, Homes, Uncommitted, Durable, RecoveryDisk, RecoveryRun,
           Targets,
           HeaderSectors;
      ghost var d := cache.disk;
      FormattedHead(area, d);
      ReadHead();
      Finish();
      cache.Facts();
      commits := [AfterCrash(area, d)];
      FreshlyRecovered(area, d);
      RecoveryRunKeeps(area, d);
      DurableStart(area, d);
      DurableRun(area, [d], commits, [0], RecoveryRun(area, d));
      epoch := [0] + Repeat(0, |RecoveryRun(area, d)|);
      pending := {};
      assert cache.flat == cache.disk;
      NoTargets(area, Logged());
    }

    /** initlog: recover the log found on disk; `cache` has just been initialised. */
    constructor (cache: Cache, area: Area)
      requires cache.Valid() && cache.Held() == {} && cache.Pinned() == {}
      requires Recoverable(area, cache.disk) && cache.trace == [cache.disk]
      modifies cache
      ensures this.cache == cache && this.area == area
      ensures Valid() && !busy
      ensures cache.trace == [old(cache.disk)] + RecoveryRun(area, old(cache.disk))
      ensures commits == [AfterCrash(area, old(cache.disk))]
    {
      this.cache := cache;
      this.area := area;
      n := 0;
      sector := seq(LOGSIZE, _ => 0);
      busy := false;
      commits := [];
      epoch := [];
      pending := {};
      new;
      hide Cache.Valid, Cache.Held, Cache.Pinned, AfterCrash, Recoverable, RecoveryRun, Valid;
      RecoverFromLog();
    }

    /** commit_trans: when anything was logged, the first header write makes every disk from there on recover to
        what clients see. */
    method CommitTrans()
      requires Valid() && busy && cache.Held() == {} && n < NBUF
      modifies this`n, this`busy, this`commits, this`epoch, cache
      ensures Valid() && !busy && cache.Held() == {}
      ensures View() == old(View())
      ensures old(n) == 0 ==> commits == old(commits) && cache.trace == old(cache.trace)
      ensures old(n) > 0 ==>
                && commits == old(commits) + [View()]
                && |cache.trace| == old(|cache.trace|) + old(n) + 2
                && old(cache.trace) <= cache.trace
                && epoch == old(epoch) + Repeat(old(|commits|), old(n) + 2)
    {
      hide Cache.Valid, Cache.Held, Cache.Pinned, AfterCrash, Homes, Uncommitted, Durable, RecoveryDisk, RecoveryRun,
           Targets,
           HeaderSectors, HeaderBlock, Recoverable, Repeat;
      assert pending == {};
      if n > 0 {
        ghost var d := CommitHeader();
        ghost var fs := old(View());
        DurableCommit(area, old(cache.trace), commits, epoch, d);
        RecoveryRunKeeps(area, d);
        FreshlyRecovered(area, d);
        Finish();
        cache.Facts();
        assert cache.flat == cache.disk;
        commits := commits + [fs];
        DurableRun(area, old(cache.trace) + [d], commits, epoch + [old(|commits|)], RecoveryRun(area, d));
        RepeatCons(old(|commits|), old(n) + 1);
        assert epoch + [old(|commits|)] + Repeat(old(|commits|), old(n) + 1) == epoch
               + Repeat(old(|commits|), old(n) + 2);
        epoch := epoch + Repeat(old(|commits|), old(n) + 2);
        NoTargets(area, Logged());
      }
      busy := false;
    }

    /** The first write_head of commit_trans. */
    method CommitHeader() returns (ghost d: Disk)
      requires Valid() && cache.Held() == {} && n < NBUF
      modifies cache
      ensures cache.Valid() && cache.Held() == {} && cache.Pinned() == old(cache.Pinned())
      ensures d == cache.disk && cache.trace == old(cache.trace) + [d]
      ensures Recoverable(area, d) && HeaderSectors(d[area.Head()]) == Logged() && AfterCrash(area, d) == old(View())
    {
      hide Cache.Valid, Cache.Held, Cache.Pinned, AfterCrash, Homes, Uncommitted, Durable, Targets,
           HeaderSectors, HeaderBlock, Recoverable;
      cache.Facts();
      TargetsSize(area, Logged());
      SoundFacts(area, Logged(), cache.disk, cache.flat, pending, cache.trace, commits, epoch);
      assert pending == {};
      CommitState(area, Logged(), cache.disk, cache.flat);
      assert cache.Held() + cache.Pinned() == cache.Pinned();
      WriteHead();
      d := cache.disk;
    }

    /** begin_trans, up to its sleep or its return: it sleeps, to look again, exactly while a transaction is open. */
    method BeginTrans() returns (sleeps: bool)
      requires Valid()
      modifies this`busy
      ensures Valid() && busy && sleeps == old(busy)
    {
      hide Cache.Valid, Cache.Held, Cache.Pinned, Sound, Targets;
      sleeps := busy;
      if !sleeps {
        busy := true;
      }
    }

    /** bread of a home sector: clients get what the latest log_write left there. */
    method Bread(a: Addr) returns (b: nat)
      requires Valid() && area.Home(a) && a in cache.disk && a !in cache.Held()
      requires |cache.Held() + cache.Pinned() + {a}| <= NBUF
      modifies cache
      ensures Valid() && View() == old(View())
      ensures cache.Holds(b, a) && a.sector in View() && cache.bufs[b].data == View()[a.sector]
      ensures a !in pending
      ensures cache.Held() == old(cache.Held()) + {a} && cache.Pinned() == old(cache.Pinned())
      ensures cache.trace == old(cache.trace)
      ensures forall c: nat, x :: old(cache.Holds(c, x)) ==> c != b && cache.Holds(c, x)
    {
      hide Cache.Valid, Cache.Held, Cache.Pinned, Sound, Targets;
      SoundFacts(area, Logged(), cache.disk, cache.flat, pending, cache.trace, commits, epoch);
      b := cache.Bread(a);
      cache.HeldData(b, a);
    }

    /** A holder changes the block; it is on its way to the log but not there yet. */
    method Modify(b: nat, ghost a: Addr, d: block)
      requires Valid() && cache.Holds(b, a)
      modifies this`pending, cache
      ensures Valid() && View() == old(View())[a.sector := d]
      ensures pending == old(pending) + {a}
      ensures cache.Holds(b, a) && cache.Held() == old(cache.Held()) && cache.Pinned() == old(cache.Pinned())
      ensures cache.trace == old(cache.trace)
      ensures forall c: nat, x :: old(cache.Holds(c, x)) ==> cache.Holds(c, x)
    {
      hide Cache.Valid, Cache.Held, Cache.Pinned, Sound, Targets, Homes;
      cache.HeldData(b, a);
      SoundModify(area, Logged(), cache.disk, cache.flat, pending, cache.trace, commits, epoch, a, d);
      cache.SetData(b, d);
      pending := pending + {a};
    }

    /** brelse, once every change to the block has been through log_write. */
    method Brelse(b: nat, ghost a: Addr)
      requires Valid() && cache.Holds(b, a) && a !in pending
      modifies cache
      ensures Valid() && View() == old(View())
      ensures cache.Held() == old(cache.Held()) - {a} && cache.Pinned() == old(cache.Pinned())
      ensures cache.trace == old(cache.trace)
      ensures forall c: nat, x :: c != b && old(cache.Holds(c, x)) ==> cache.Holds(c, x)
    {
      hide Cache.Valid, Cache.Held, Cache.Pinned, Sound, Targets, Index, Without;
      cache.HeldData(b, a);
      SoundFacts(area, Logged(), cache.disk, cache.flat, pending, cache.trace, commits, epoch);
      hide Uncommitted, Durable;
      ReleaseSaved(area, Logged(), cache.disk, cache.flat, pending, a);
      cache.Brelse(b);
    }

    /** log_write's search: the log index of sector `s`, or the first free one. */
    method Find(s: nat) returns (i: nat)
      requires n <= |sector|
      ensures i <= n
      ensures forall j :: 0 <= j < i ==> sector[j] != s
      ensures i < n ==> sector[i] == s
    {
      i := 0;
      while i < n && sector[i] != s
        invariant 0 <= i <= n
        invariant forall j :: 0 <= j < i ==> sector[j] != s
      {
        i := i + 1;
      }
    }

    method Record(i: nat, s: uint)
      requires i <= n < |sector| && (i < n ==> sector[i] == s)
      modifies this`n, this`sector
      ensures |sector| == old(|sector|) && n <= |sector|
      ensures Logged() == Append(old(Logged()), i, s)
    {
      sector := sector[i := s];
      if i == n {
        n := n + 1;
      }
    }

    /** The copying half of log_write: the held block goes to log block `i`, and its buffer is pinned. */
    method CopyToLog(b: nat, ghost a: Addr, i: nat)
      requires cache.Valid() && cache.Holds(b, a)
      requires area.Slot(i) in cache.disk && area.dev != NODEV
      requires area.Slot(i) !in cache.Held() && |cache.Held() + cache.Pinned()| < NBUF
      modifies cache
      ensures cache.Valid() && cache.Holds(b, a)
      ensures cache.Held() == old(cache.Held()) && cache.Pinned() == old(cache.Pinned()) - {area.Slot(i)} + {a}
      ensures a in old(cache.flat) && cache.flat == old(cache.flat)[area.Slot(i) := old(cache.flat)[a]]
      ensures cache.disk == old(cache.disk)[area.Slot(i) := old(cache.flat)[a]]
      ensures cache.trace == old(cache.trace) + [cache.disk]
      ensures forall c: nat, x :: old(cache.Holds(c, x)) ==> cache.Holds(c, x)
    {
      hide Cache.Valid, Cache.Held, Cache.Pinned;
      cache.HeldData(b, a);
      var lbuf := cache.Bread(area.Slot(i));
      cache.HeldData(b, a);
      cache.WriteOut(lbuf, area.Slot(i), cache.bufs[b].data);
      cache.Pin(b);
    }

    /** The body of log_write, in terms of the sector list and the disk. */
    method AppendBlock(b: nat, ghost a: Addr) returns (i: nat)
      requires cache.Valid() && cache.Holds(b, a) && area.dev != NODEV
      requires n < |sector| && a.sector <= UINT_MAX
      requires forall j: nat :: j <= n ==> area.Slot(j) in cache.disk && area.Slot(j) !in cache.Held()
      requires |cache.Held() + cache.Pinned()| < NBUF
      modifies this`n, this`sector, cache
      ensures |sector| == old(|sector|) && n <= |sector|
      ensures Entry(old(Logged()), i, a.sector) && Logged() == Append(old(Logged()), i, a.sector)
      ensures cache.Valid() && cache.Holds(b, a)
      ensures cache.Held() == old(cache.Held()) && cache.Pinned() == old(cache.Pinned()) - {area.Slot(i)} + {a}
      ensures a in old(cache.flat) && cache.flat == old(cache.flat)[area.Slot(i) := old(cache.flat)[a]]
      ensures cache.disk == old(cache.disk)[area.Slot(i) := old(cache.flat)[a]]
      ensures cache.trace == old(cache.trace) + [cache.disk]
      ensures forall c: nat, x :: old(cache.Holds(c, x)) ==> cache.Holds(c, x)
    {
      hide Cache.Valid, Cache.Held, Cache.Pinned;
      i := Find(cache.bufs[b].at.sector);
      CopyToLog(b, a, i);
      Record(i, cache.bufs[b].at.sector);
    }

    /** The next log block exists and nobody holds it. */
    lemma CanAppend(b: nat, a: Addr)
      requires Valid() && cache.Holds(b, a) && n < area.size - 1
      ensures area.dev != NODEV && a in cache.disk
      ensures forall j: nat :: j <= n ==> area.Slot(j) in cache.disk && area.Slot(j) !in cache.Held()
    {
      hide Cache.Valid, Cache.Held, Cache.Pinned, Sound, Targets, Uncommitted, Durable;
      cache.HeldData(b, a);
      SoundFacts(area, Logged(), cache.disk, cache.flat, pending, cache.trace, commits, epoch);
    }

    /** log_write: append the held block to the log, or overwrite its earlier entry, and pin its buffer. */
    method LogWrite(b: nat, ghost a: Addr)
      requires Valid() && busy && cache.Holds(b, a) && area.Home(a) && a.sector <= UINT_MAX
      requires n < LOGSIZE && n < area.size - 1
      requires |cache.Held() + cache.Pinned()| < NBUF
      modifies this`n, this`sector, this`epoch, this`pending, cache
      ensures Valid() && busy && pending == old(pending) - {a}
      ensures cache.Holds(b, a) && cache.Held() == old(cache.Held()) && cache.Pinned() == old(cache.Pinned()) + {a}
      ensures forall c: nat, x :: old(cache.Holds(c, x)) ==> cache.Holds(c, x)
      ensures Logged() == if a in old(cache.Pinned()) then old(Logged()) else old(Logged()) + [a.sector]
      ensures View() == old(View())
      ensures commits == old(commits)
    {
      hide Cache.Valid, Cache.Held, Cache.Pinned, Sound, Homes, Targets, Entry, Append, Uncommitted, Durable;
      CanAppend(b, a);
      var i := AppendBlock(b, a);
      AppendTargets(area, old(Logged()), a, i);
      SoundAppend(area, old(Logged()), old(cache.disk), old(cache.flat), pending, old(cache.trace), commits, epoch, a,
          i);
      pending := pending - {a};
      epoch := epoch + [|commits| - 1];
    }

    /** Between transactions clients see the last commit. */
    lemma LastCommit()
      requires Valid() && n == 0 && pending == {}
      ensures |commits| > 0 && commits[|commits| - 1] == View()
    {
      hide Durable, Loggable, Formatted, Homes;
      assert Targets(area, Logged()) == {};
      assert cache.flat == cache.disk;
    }

    /** The log holds one entry per pinned sector. */
    lemma LoggedSize()
      requires Valid()
      ensures n == |cache.Pinned()|
    {
      TargetsDistinct(area, Logged());
    }

    /** What a holder reads in the buffer is the client view of the sector. */
    lemma HeldView(b: nat, s: nat)
      requires Valid() && s < area.start && cache.Holds(b, area.To(s))
      ensures s in View() && cache.bufs[b].data == View()[s]
    {
      hide Sound;
      cache.HeldData(b, area.To(s));
    }

    /** The idiom of changing a buffer, logging and releasing it. At most MAXLOAD buffers may be held or pinned, and
        then neither log_write nor the bread it makes can panic. */
    method LogAndRelease(b: nat, s: nat, d: block)
      requires Valid() && busy && s < area.start <= UINT_MAX && area.size >= LOGSIZE && cache.Holds(b, area.To(s))
      requires |cache.Held() + cache.Pinned()| <= MAXLOAD
      modifies this`n, this`sector, this`epoch, this`pending, cache
      ensures Valid() && busy && pending == old(pending) - {area.To(s)}
      ensures View() == old(View())[s := d] && commits == old(commits)
      ensures cache.Held() == old(cache.Held()) - {area.To(s)}
      ensures cache.Pinned() == old(cache.Pinned()) + {area.To(s)}
      ensures forall c: nat, x :: c != b && old(cache.Holds(c, x)) ==> cache.Holds(c, x)
    {
      hide Valid, Cache.Held, Cache.Pinned, View, Logged;
      LoggedSize();
      SubsetSize(cache.Pinned(), cache.Held() + cache.Pinned());
      Modify(b, area.To(s), d);
      LogWrite(b, area.To(s));
      Brelse(b, area.To(s));
    }

    lemma ViewDomain(s: nat)
      requires Valid() && s in View()
      ensures s < area.start && area.To(s) in cache.disk
    {
      hide Sound, Cache.Valid;
      cache.Facts();
    }

    /** bread of home sector `s`. */
    method Get(s: nat) returns (b: nat)
      requires Valid() && s in View() && area.To(s) !in cache.Held()
      requires |cache.Held() + cache.Pinned() + {area.To(s)}| <= NBUF
      modifies cache
      ensures Valid() && View() == old(View())
      ensures cache.Holds(b, area.To(s)) && cache.bufs[b].data == View()[s]
      ensures area.To(s) !in pending
      ensures cache.Held() == old(cache.Held()) + {area.To(s)} && cache.Pinned() == old(cache.Pinned())
      ensures forall c: nat, x :: old(cache.Holds(c, x)) ==> c != b && cache.Holds(c, x)
    {
      hide Valid, Cache.Held, Cache.Pinned, View;
      ViewDomain(s);
      b := Bread(area.To(s));
    }

    /** bread, look, brelse. */
    method ReadBlock(s: nat) returns (d: block)
      requires Valid() && s in View() && area.To(s) !in cache.Held()
      requires |cache.Held() + cache.Pinned() + {area.To(s)}| <= NBUF
      modifies cache
      ensures Valid() && View() == old(View())
      ensures d == View()[s]
      ensures cache.Held() == old(cache.Held()) && cache.Pinned() == old(cache.Pinned())
      ensures forall c: nat, x :: old(cache.Holds(c, x)) ==> cache.Holds(c, x)
    {
      hide Valid, Cache.Held, Cache.Pinned, View, Logged;
      var b := Get(s);
      d := cache.bufs[b].data;
      Brelse(b, area.To(s));
    }
  }
}
