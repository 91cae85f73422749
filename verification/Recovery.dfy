/** What crash recovery (log.c) makes of any disk on which the machine may have stopped. */
module Recovery {
  import opened Bytes
  import opened BufferCache

  const LOGSIZE: nat := 10

  /** Where the log lives: the header at `start`, log block i at `start + 1 + i`, everything before `start`
      on the same device is a home sector. */
  datatype Area = Area(dev: nat, start: nat, size: nat) {
    predicate Home(a: Addr) { a.dev == dev && a.sector < start }
    function Head(): Addr { Addr(dev, start) }
    function Slot(i: nat): Addr { Addr(dev, start + 1 + i) }
    function To(sector: nat): Addr { Addr(dev, sector) }
  }

  ghost predicate Formatted(log: Area, d: Disk) {
    && log.size > 0 && log.dev != NODEV
    && log.Head() in d
    && (forall i: nat :: i < log.size - 1 ==> log.Slot(i) in d)
  }

  /** Sector lists the log can hold: distinct home sectors, no more than there are log blocks. */
  ghost predicate Loggable(log: Area, d: Disk, secs: seq<uint>) {
    && |secs| <= LOGSIZE && |secs| <= log.size - 1
    && (forall i :: 0 <= i < |secs| ==> secs[i] < log.start && log.To(secs[i]) in d)
    && (forall i, j :: 0 <= i < j < |secs| ==> secs[i] != secs[j])
  }

  /** The header block as the sector list it commits. */
  function HeaderSectors(b: block): (secs: seq<uint>)
    requires Word(b, 0) <= LOGSIZE
  {
    seq(Word(b, 0), i requires 0 <= i < Word(b, 0) => Word(b, 1 + i))
  }

  ghost predicate Recoverable(log: Area, d: Disk) {
    && Formatted(log, d)
    && Word(d[log.Head()], 0) <= LOGSIZE
    && Loggable(log, d, HeaderSectors(d[log.Head()]))
  }

  /** The disk once the first log blocks have been copied to the sectors in `secs`. */
  ghost function Installed(log: Area, d: Disk, secs: seq<uint>): (r: Disk)
    requires Formatted(log, d) && Loggable(log, d, secs)
    ensures r.Keys == d.Keys
  {
    if secs == [] then d
    else var k := |secs| - 1; Installed(log, d, secs[..k])[log.To(secs[k]) := d[log.Slot(k)]]
  }

  /** The home sectors of a disk: the file system. */
  type Image = map<nat, block>

  ghost function Homes(log: Area, d: Disk): (fs: Image) {
    map s: nat | s < log.start && log.To(s) in d :: d[log.To(s)]
  }

  /** Writing to the log area changes no home sector. */
  lemma SlotWriteHomes(log: Area, d: Disk, a: Addr, data: block)
    requires a in d && !log.Home(a)
    ensures Homes(log, d[a := data]) == Homes(log, d)
  {
  }

  /** The file system that a completed recovery leaves if the machine stops with disk `d`. */
  ghost function AfterCrash(log: Area, d: Disk): (fs: Image)
    requires Recoverable(log, d)
  {
    Homes(log, Installed(log, d, HeaderSectors(d[log.Head()])))
  }

  /** Installing writes each listed sector with its log block and nothing else. */
  lemma {:induction false} InstalledAt(log: Area, d: Disk, secs: seq<uint>, a: Addr)
    requires Formatted(log, d) && Loggable(log, d, secs) && a in d
    ensures (forall i :: 0 <= i < |secs| ==> log.To(secs[i]) != a) ==> Installed(log, d, secs)[a] == d[a]
    ensures forall i :: 0 <= i < |secs| && log.To(secs[i]) == a ==> Installed(log, d, secs)[a] == d[log.Slot(i)]
  {
    if secs != [] {
      InstalledAt(log, d, secs[..|secs| - 1], a);
    }
  }

  lemma InstalledLogArea(log: Area, d: Disk, secs: seq<uint>)
    requires Formatted(log, d) && Loggable(log, d, secs)
    ensures var r := Installed(log, d, secs);
            && Formatted(log, r)
            && (forall a :: a in d && !log.Home(a) ==> r[a] == d[a])
  {
    InstalledAt(log, d, secs, log.Head());
    forall a | a in d && !log.Home(a) ensures Installed(log, d, secs)[a] == d[a] {
      InstalledAt(log, d, secs, a);
    }
  }

  lemma InstalledTwice(log: Area, d: Disk, secs: seq<uint>, k: nat, a: Addr)
    requires Formatted(log, d) && Loggable(log, d, secs) && k <= |secs| && a in d
    ensures var r := Installed(log, d, secs[..k]);
            Formatted(log, r) && Installed(log, r, secs)[a] == Installed(log, d, secs)[a]
  {
    var r := Installed(log, d, secs[..k]);
    InstalledLogArea(log, d, secs[..k]);
    InstalledAt(log, d, secs[..k], a);
    InstalledAt(log, d, secs, a);
    InstalledAt(log, r, secs, a);
  }

  /** Crashing part-way through the copying changes nothing: recovery starts over and ends the same. */
  lemma InstallStepKeeps(log: Area, d: Disk, k: nat)
    requires Recoverable(log, d) && k <= |HeaderSectors(d[log.Head()])|
    ensures var r := Installed(log, d, HeaderSectors(d[log.Head()])[..k]);
            r[log.Head()] == d[log.Head()] && Recoverable(log, r) && AfterCrash(log, r) == AfterCrash(log, d)
  {
    var secs := HeaderSectors(d[log.Head()]);
    var r := Installed(log, d, secs[..k]);
    hide Installed, Word, Homes;
    InstalledLogArea(log, d, secs[..k]);
    forall a | a in d ensures Installed(log, r, secs)[a] == Installed(log, d, secs)[a] {
      InstalledTwice(log, d, secs, k, a);
    }
    assert Installed(log, r, secs) == Installed(log, d, secs);
  }

  /** An empty header: recovery leaves the home sectors as they are. */
  lemma EmptyHeader(log: Area, d: Disk)
    requires Formatted(log, d) && Word(d[log.Head()], 0) == 0
    ensures Recoverable(log, d) && AfterCrash(log, d) == Homes(log, d)
  {
  }

  // The header block with a sector list written into it; the words past the list keep their old contents.
  function PutSectors(b: block, secs: seq<uint>): (r: block)
    requires |secs| <= LOGSIZE
    ensures forall i :: 0 <= i < |secs| ==> Word(r, 1 + i) == secs[i]
    ensures Word(r, 0) == Word(b, 0)
  {
    if secs == [] then b else var k := |secs| - 1; PutWord(PutSectors(b, secs[..k]), |secs|, secs[k])
  }

  function HeaderBlock(b: block, secs: seq<uint>): (r: block)
    requires |secs| <= LOGSIZE
    ensures Word(r, 0) == |secs| && HeaderSectors(r) == secs
  {
    PutSectors(PutWord(b, 0, |secs|), secs)
  }

  /** struct logheader: the number of sectors in word 0, and the sectors after it. */
  ghost predicate Heads(b: block, n: nat, sector: seq<uint>) {
    n <= |sector| <= LOGSIZE && Word(b, 0) == n && forall i :: 0 <= i < n ==> Word(b, 1 + i) == sector[i]
  }

  lemma HeaderHeads(b: block, n: nat, sector: seq<uint>)
    requires n <= |sector| <= LOGSIZE
    ensures Heads(HeaderBlock(b, sector[..n]), n, sector)
  {
    hide Word, PutSectors, PutWord;
    var r := HeaderBlock(b, sector[..n]);
    forall i | 0 <= i < n ensures Word(r, 1 + i) == sector[i] {
      assert HeaderSectors(r)[i] == sector[..n][i];
    }
  }

  /** The commit point: writing the header is what makes the logged blocks the recovered ones. */
  lemma CommitPoint(log: Area, d: Disk, secs: seq<uint>)
    requires Formatted(log, d) && Loggable(log, d, secs)
    ensures var r := d[log.Head() := HeaderBlock(d[log.Head()], secs)];
            Recoverable(log, r) && HeaderSectors(r[log.Head()]) == secs && AfterCrash(log, r).Keys == Homes(log, d).Keys
  {
    var r := d[log.Head() := HeaderBlock(d[log.Head()], secs)];
    InstalledLogArea(log, r, secs);
  }

  lemma CommitPointAt(log: Area, d: Disk, secs: seq<uint>, s: nat)
    requires Formatted(log, d) && Loggable(log, d, secs) && s < log.start && log.To(s) in d
    ensures var r := d[log.Head() := HeaderBlock(d[log.Head()], secs)];
            && Recoverable(log, r) && s in AfterCrash(log, r)
            && (s !in secs ==> AfterCrash(log, r)[s] == d[log.To(s)])
            && (forall i :: 0 <= i < |secs| && secs[i] == s ==> AfterCrash(log, r)[s] == d[log.Slot(i)])
  {
    var r := d[log.Head() := HeaderBlock(d[log.Head()], secs)];
    InstalledAt(log, r, secs, log.To(s));
  }

  /** The disk after the first `k` sector writes of recover_from_log: the copies, then the cleared header. */
  ghost function RecoveryDisk(log: Area, d: Disk, k: nat): (r: Disk)
    requires Recoverable(log, d) && k <= |HeaderSectors(d[log.Head()])| + 1
  {
    var secs := HeaderSectors(d[log.Head()]);
    if k <= |secs| then Installed(log, d, secs[..k])
    else Installed(log, d, secs)[log.Head() := HeaderBlock(d[log.Head()], [])]
  }

  /** Every disk that recovery passes through recovers to the same file system. */
  lemma RecoveryStepKeeps(log: Area, d: Disk, k: nat)
    requires Recoverable(log, d) && k <= |HeaderSectors(d[log.Head()])| + 1
    ensures Recoverable(log, RecoveryDisk(log, d, k))
    ensures AfterCrash(log, RecoveryDisk(log, d, k)) == AfterCrash(log, d)
  {
    var secs := HeaderSectors(d[log.Head()]);
    if k <= |secs| {
      InstallStepKeeps(log, d, k);
    } else {
      RecoveryCompletes(log, d);
    }
  }

  /** A recovery that runs to its end leaves that file system on disk and an empty log. */
  lemma {:induction false} RecoveryCompletes(log: Area, d: Disk)
    requires Recoverable(log, d)
    ensures var r := RecoveryDisk(log, d, |HeaderSectors(d[log.Head()])| + 1);
            && Homes(log, r) == AfterCrash(log, d)
            && Recoverable(log, r) && HeaderSectors(r[log.Head()]) == []
            && AfterCrash(log, r) == AfterCrash(log, d)
  {
    hide Installed, Homes, HeaderBlock;
    var secs := HeaderSectors(d[log.Head()]);
    var done := Installed(log, d, secs);
    EmptyHeader(log, RecoveryDisk(log, d, |secs| + 1));
    SlotWriteHomes(log, done, log.Head(), HeaderBlock(d[log.Head()], []));
  }

  /** The disks that copying the listed log blocks passes through, in order. */
  ghost function InstallRun(log: Area, d: Disk, secs: seq<uint>): (ds: seq<Disk>)
    requires Formatted(log, d) && Loggable(log, d, secs)
    ensures |ds| == |secs|
  {
    if secs == [] then [] else InstallRun(log, d, secs[..|secs| - 1]) + [Installed(log, d, secs)]
  }

  lemma {:induction false} InstallRunAt(log: Area, d: Disk, secs: seq<uint>, k: nat)
    requires Formatted(log, d) && Loggable(log, d, secs) && k < |secs|
    ensures InstallRun(log, d, secs)[k] == Installed(log, d, secs[..k + 1])
  {
    if k + 1 == |secs| {
      assert secs[..k + 1] == secs;
    } else {
      InstallRunAt(log, d, secs[..|secs| - 1], k);
      assert secs[..|secs| - 1][..k + 1] == secs[..k + 1];
    }
  }

  /** All the disks a whole recovery of `d` passes through, in order. */
  ghost function RecoveryRun(log: Area, d: Disk): (ds: seq<Disk>)
    requires Recoverable(log, d)
    ensures |ds| == |HeaderSectors(d[log.Head()])| + 1
  {
    var secs := HeaderSectors(d[log.Head()]);
    InstallRun(log, d, secs) + [RecoveryDisk(log, d, |secs| + 1)]
  }

  lemma RecoveryRunAt(log: Area, d: Disk, k: nat)
    requires Recoverable(log, d) && k <= |HeaderSectors(d[log.Head()])|
    ensures RecoveryRun(log, d)[k] == RecoveryDisk(log, d, k + 1)
  {
    var secs := HeaderSectors(d[log.Head()]);
    if k < |secs| {
      InstallRunAt(log, d, secs, k);
    }
  }

  /** Every disk of a recovery recovers to the same file system, which the last one already holds. */
  lemma RecoveryRunKeeps(log: Area, d: Disk)
    requires Recoverable(log, d)
    ensures forall k :: 0 <= k < |RecoveryRun(log, d)| ==>
              Recoverable(log, RecoveryRun(log, d)[k]) && AfterCrash(log, RecoveryRun(log, d)[k]) == AfterCrash(log, d)
  {
    hide RecoveryRun, RecoveryDisk, AfterCrash, Recoverable;
    forall k | 0 <= k < |RecoveryRun(log, d)|
      ensures Recoverable(log, RecoveryRun(log, d)[k]) && AfterCrash(log, RecoveryRun(log, d)[k]) == AfterCrash(log, d)
    {
      RecoveryRunAt(log, d, k);
      RecoveryStepKeeps(log, d, k + 1);
    }
  }

  lemma LoggableAt(log: Area, d: Disk, secs: seq<uint>, k: nat)
    requires Formatted(log, d) && Loggable(log, d, secs) && k < |secs|
    ensures Loggable(log, d, secs[..k]) && Loggable(log, d, secs[..k + 1])
    ensures log.dev != NODEV && log.Slot(k) in d && log.To(secs[k]) in d && log.Slot(k) != log.To(secs[k])
    ensures forall i :: 0 <= i < |secs| ==> log.To(secs[i]) != log.Slot(k)
  {
  }

  lemma {:induction false} InstallNext(log: Area, d: Disk, secs: seq<uint>, k: nat)
    requires Formatted(log, d) && Loggable(log, d, secs) && k < |secs|
    ensures Installed(log, d, secs[..k + 1])
            == Installed(log, d, secs[..k])[log.To(secs[k]) := Installed(log, d, secs[..k])[log.Slot(k)]]
    ensures InstallRun(log, d, secs[..k + 1]) == InstallRun(log, d, secs[..k]) + [Installed(log, d, secs[..k + 1])]
  {
    assert secs[..k + 1][..k] == secs[..k];
    InstalledLogArea(log, d, secs[..k]);
  }

  /** `r` is a disk at which a recovery started on `d` can be cut off. */
  ghost predicate CutOff(log: Area, d: Disk, r: Disk)
    requires Recoverable(log, d)
  {
    exists k: nat {:trigger RecoveryDisk(log, d, k)} ::
      k <= |HeaderSectors(d[log.Head()])| + 1 && r == RecoveryDisk(log, d, k)
  }

  lemma CutOffKeeps(log: Area, d: Disk, r: Disk)
    requires Recoverable(log, d) && CutOff(log, d, r)
    ensures Recoverable(log, r) && AfterCrash(log, r) == AfterCrash(log, d)
  {
    var k: nat :| k <= |HeaderSectors(d[log.Head()])| + 1 && r == RecoveryDisk(log, d, k);
    RecoveryStepKeeps(log, d, k);
  }

  /** A history of crashes, each cutting off the recovery that the previous crash made necessary. */
  ghost predicate CrashChain(log: Area, ds: seq<Disk>) {
    && |ds| > 0
    && (forall i :: 0 <= i < |ds| ==> Recoverable(log, ds[i]))
    && (forall i, j :: 0 <= i < |ds| && j == i + 1 < |ds| ==> CutOff(log, ds[i], ds[j]))
  }

  /** However often recovery is cut off, the recovery that completes leaves what the first would have. */
  lemma {:induction false} RepeatedCrashes(log: Area, ds: seq<Disk>)
    requires CrashChain(log, ds)
    ensures var last := ds[|ds| - 1];
            && AfterCrash(log, last) == AfterCrash(log, ds[0])
            && Homes(log, RecoveryDisk(log, last, |HeaderSectors(last[log.Head()])| + 1)) == AfterCrash(log, ds[0])
  {
    hide Recoverable, CutOff, RecoveryDisk, AfterCrash, Homes;
    RecoveryCompletes(log, ds[|ds| - 1]);
    if |ds| > 1 {
      RepeatedCrashes(log, ds[..|ds| - 1]);
      CutOffKeeps(log, ds[|ds| - 2], ds[|ds| - 1]);
    }
  }
}
