/** The process table of proc.c. A step is one stretch of code under ptable.lock; between steps any process may run. */
module Proc {
  const NPROC: nat := 64
  const INT_MAX: int := 0x7fff_ffff

  datatype State = UNUSED | EMBRYO | SLEEPING | RUNNABLE | RUNNING | ZOMBIE

  /** What a process can sleep on: a process table entry, or anything else in the kernel. */
  datatype Chan = NoChan | OnProc(slot: int) | Other(id: int)

  /** Where a process stands: inside wait, inside waitpid (asleep on `slot`, looking for `pid`), or anywhere else. */
  datatype Place = Away | InWait | InWaitpid(slot: int, pid: int)

  const NOBODY: int := -1

  datatype Proc = Proc(state: State, pid: int, parent: int, chan: Chan, killed: bool, prio: int, cur_index: int,
                       est: int, place: Place)

  function Free(): (p: Proc) {
    Proc(UNUSED, 0, NOBODY, NoChan, false, 0, 0, 0, Away)
  }

  predicate Live(p: Proc) {
    p.state == SLEEPING || p.state == RUNNABLE || p.state == RUNNING
  }

  predicate Started(p: Proc) {
    Live(p) || p.state == ZOMBIE
  }

  // ---- what holds in every reachable state ------------------------------------------------------------------

  /** Every process has its own pid. */
  ghost predicate Pids(ps: seq<Proc>, nextpid: int) {
    && (forall i :: 0 <= i < |ps| ==> 0 <= ps[i].pid < nextpid && (ps[i].state != UNUSED ==> ps[i].pid >= 1))
    && (forall i, j :: 0 <= i < |ps| && 0 <= j < |ps| && i != j && ps[i].pid != 0 ==> ps[i].pid != ps[j].pid)
  }

  /** Every started process but init has a live parent with a smaller pid. */
  ghost predicate HasParent(ps: seq<Proc>, i: int)
    requires 0 <= i < |ps|
  {
    var q := ps[i].parent;
    0 <= q < |ps| && Live(ps[q]) && ps[q].pid < ps[i].pid
  }

  ghost predicate Tree(ps: seq<Proc>, init: int) {
    && 0 <= init < |ps| && Live(ps[init]) && ps[init].pid == 1
    && (forall i :: 0 <= i < |ps| && Started(ps[i]) && i != init ==> HasParent(ps, i))
    && (forall i :: 0 <= i < |ps| && (!Started(ps[i]) || i == init) ==> ps[i].parent == NOBODY)
  }

  /** The process that is setting up an EMBRYO is alive and older. */
  ghost predicate Makers(ps: seq<Proc>, maker: map<int, int>) {
    forall i :: 0 <= i < |ps| && ps[i].state == EMBRYO ==>
      i in maker && 0 <= maker[i] < |ps| && Live(ps[maker[i]]) && ps[maker[i]].pid < ps[i].pid
  }

  /** A pid that exited is a ZOMBIE with its status until it is reaped, and never again. */
  ghost predicate Reaping(ps: seq<Proc>, exited: map<int, int>, reaped: set<int>) {
    && (forall i :: 0 <= i < |ps| && ps[i].state == ZOMBIE ==>
          ps[i].pid in exited && ps[i].est == exited[ps[i].pid] && ps[i].pid !in reaped)
    && (forall i :: 0 <= i < |ps| && ps[i].state != UNUSED && ps[i].state != ZOMBIE ==> ps[i].pid !in exited)
    && reaped <= exited.Keys
    && (forall pid :: pid in exited && pid !in reaped ==> ZombieWith(ps, pid))
  }

  ghost predicate ZombieWith(ps: seq<Proc>, pid: int) {
    exists i :: 0 <= i < |ps| && ps[i].state == ZOMBIE && ps[i].pid == pid
  }

  ghost predicate NoZombieChild(ps: seq<Proc>, i: int) {
    forall z :: 0 <= z < |ps| && ps[z].state == ZOMBIE ==> ps[z].parent != i
  }

  /** Slot `s` holds process `pid`, which has not exited. */
  predicate Pending(ps: seq<Proc>, s: int, pid: int) {
    0 <= s < |ps| && ps[s].state != UNUSED && ps[s].state != ZOMBIE && ps[s].pid == pid
  }

  /** Sleeper `i` still has reason to sleep. */
  ghost predicate WellAsleep(ps: seq<Proc>, i: int)
    requires 0 <= i < |ps|
  {
    match ps[i].place
    case Away => !ps[i].chan.OnProc?
    case InWait => ps[i].chan == OnProc(i) && NoZombieChild(ps, i)
    case InWaitpid(s, pid) => ps[i].chan == OnProc(s) && Pending(ps, s, pid)
  }

  /** Nobody sleeps in wait with a ZOMBIE child, and nobody sleeps in waitpid on a process that has exited. */
  ghost predicate Awake(ps: seq<Proc>) {
    forall i :: 0 <= i < |ps| && ps[i].state == SLEEPING ==> WellAsleep(ps, i)
  }

  /** Whoever is inside waitpid remembers an entry of the table. */
  ghost predicate Placed(ps: seq<Proc>) {
    forall i :: 0 <= i < |ps| ==> PlaceOk(ps[i].place, |ps|)
  }

  predicate PlaceOk(place: Place, n: nat) {
    place.InWaitpid? ==> 0 <= place.slot < n
  }

  predicate SleepsOn(p: Proc, s: int) {
    p.state == SLEEPING && p.chan == OnProc(s) && p.place.InWaitpid?
  }

  /** Number of processes asleep in waitpid on slot `s`. */
  ghost function Sleepers(ps: seq<Proc>, s: int): (n: nat) {
    if ps == [] then 0 else Sleepers(ps[..|ps| - 1], s) + if SleepsOn(ps[|ps| - 1], s) then 1 else 0
  }

  /** How far the counter of a slot is ahead of its sleepers; exit needs it to be 0. */
  ghost function Slack(ps: seq<Proc>, s: int): (n: int)
    requires 0 <= s < |ps|
  {
    ps[s].cur_index - Sleepers(ps, s)
  }

  /** The counter of a slot covers its sleepers. */
  ghost predicate Counted(ps: seq<Proc>) {
    forall s :: 0 <= s < |ps| ==> Slack(ps, s) >= 0
  }

  /** A step that changes no slot's slack. */
  ghost predicate SameSlack(ps: seq<Proc>, r: seq<Proc>) {
    |r| == |ps| && forall s :: 0 <= s < |ps| ==> Slack(r, s) == Slack(ps, s)
  }

  // ---- counting sleepers ------------------------------------------------------------------------------------

  lemma {:induction false} SleepersSet(ps: seq<Proc>, i: int, p: Proc, s: int)
    requires 0 <= i < |ps|
    ensures Sleepers(ps[i := p], s) ==
              Sleepers(ps, s) - (if SleepsOn(ps[i], s) then 1 else 0) + if SleepsOn(p, s) then 1 else 0
  {
    var n := |ps| - 1;
    if i == n {
      assert ps[i := p][..n] == ps[..n];
    } else {
      assert ps[i := p][..n] == ps[..n][i := p];
      SleepersSet(ps[..n], i, p, s);
    }
  }

  lemma SlackSet(ps: seq<Proc>, i: int, p: Proc, s: int)
    requires 0 <= i < |ps| && 0 <= s < |ps|
    ensures Slack(ps[i := p], s) ==
              Slack(ps, s) + (if s == i then p.cur_index - ps[i].cur_index else 0)
              + (if SleepsOn(ps[i], s) then 1 else 0) - if SleepsOn(p, s) then 1 else 0
  {
    SleepersSet(ps, i, p, s);
  }

  lemma {:induction false} SleepersNone(ps: seq<Proc>, s: int)
    requires forall i :: 0 <= i < |ps| ==> !SleepsOn(ps[i], s)
    ensures Sleepers(ps, s) == 0
  {
    if ps != [] {
      SleepersNone(ps[..|ps| - 1], s);
    }
  }

  lemma {:induction false} SleepersSome(ps: seq<Proc>, s: int, i: int)
    requires 0 <= i < |ps| && SleepsOn(ps[i], s)
    ensures Sleepers(ps, s) > 0
  {
    if i < |ps| - 1 {
      SleepersSome(ps[..|ps| - 1], s, i);
    }
  }

  // ---- waking -----------------------------------------------------------------------------------------------

  function Woken(p: Proc, ch: Chan): (r: Proc) {
    if p.state == SLEEPING && p.chan == ch then p.(state := RUNNABLE) else p
  }

  /** Everyone asleep on `ch` is RUNNABLE, and nothing else has changed. */
  ghost predicate AllRoused(ps: seq<Proc>, r: seq<Proc>, ch: Chan) {
    |r| == |ps| && forall i :: 0 <= i < |ps| ==>
      r[i] == if ps[i].state == SLEEPING && ps[i].chan == ch then ps[i].(state := RUNNABLE) else ps[i]
  }

  /** wakeup1: everyone asleep on `ch` becomes RUNNABLE. */
  function WakeAll(ps: seq<Proc>, ch: Chan): (r: seq<Proc>)
    ensures |r| == |ps| && forall i :: 0 <= i < |ps| ==> r[i] == Woken(ps[i], ch)
  {
    seq(|ps|, i requires 0 <= i < |ps| => Woken(ps[i], ch))
  }

  lemma {:induction false} SleepersWoken(ps: seq<Proc>, r: seq<Proc>, ch: Chan, s: int)
    requires |r| == |ps| && forall i :: 0 <= i < |ps| ==> r[i] == Woken(ps[i], ch)
    ensures Sleepers(r, s) == if ch == OnProc(s) then 0 else Sleepers(ps, s)
  {
    if ps != [] {
      SleepersWoken(ps[..|ps| - 1], r[..|ps| - 1], ch, s);
    }
  }

  lemma {:induction false} SleepersFewer(ps: seq<Proc>, r: seq<Proc>, s: int)
    requires |r| == |ps| && forall i :: 0 <= i < |ps| && SleepsOn(r[i], s) ==> SleepsOn(ps[i], s)
    ensures Sleepers(r, s) <= Sleepers(ps, s)
    ensures (forall i :: 0 <= i < |ps| ==> SleepsOn(r[i], s) == SleepsOn(ps[i], s)) ==>
            Sleepers(r, s) == Sleepers(ps, s)
  {
    if ps != [] {
      SleepersFewer(ps[..|ps| - 1], r[..|ps| - 1], s);
    }
  }

  // ---- steps that only move processes between the live states -----------------------------------------------

  /** Nothing changes but who runs, who sleeps and where. */
  ghost predicate SameShape(ps: seq<Proc>, r: seq<Proc>) {
    && |r| == |ps|
    && forall i :: 0 <= i < |ps| ==>
         && r[i].pid == ps[i].pid && r[i].parent == ps[i].parent && r[i].est == ps[i].est
         && (r[i].state == ps[i].state || (Live(ps[i]) && Live(r[i])))
         && (r[i].place == ps[i].place || PlaceOk(r[i].place, |ps|))
  }

  lemma ShapePlaced(ps: seq<Proc>, r: seq<Proc>)
    requires SameShape(ps, r) && Placed(ps)
    ensures Placed(r)
  {
  }

  lemma ShapePids(ps: seq<Proc>, r: seq<Proc>, nextpid: int)
    requires SameShape(ps, r) && Pids(ps, nextpid)
    ensures Pids(r, nextpid)
  {
  }

  lemma ShapeTree(ps: seq<Proc>, r: seq<Proc>, init: int)
    requires SameShape(ps, r) && Tree(ps, init)
    ensures Tree(r, init)
  {
    forall i | 0 <= i < |r| && Started(r[i]) && i != init ensures HasParent(r, i) {
      assert HasParent(ps, i);
    }
  }

  lemma ShapeMakers(ps: seq<Proc>, r: seq<Proc>, maker: map<int, int>)
    requires SameShape(ps, r) && Makers(ps, maker)
    ensures Makers(r, maker)
  {
    forall i | 0 <= i < |r| && r[i].state == EMBRYO
      ensures i in maker && 0 <= maker[i] < |r| && Live(r[maker[i]]) && r[maker[i]].pid < r[i].pid
    {
      assert ps[i].state == EMBRYO;
    }
  }

  lemma ShapeReaping(ps: seq<Proc>, r: seq<Proc>, exited: map<int, int>, reaped: set<int>)
    requires SameShape(ps, r) && Reaping(ps, exited, reaped)
    ensures Reaping(r, exited, reaped)
  {
    forall pid | pid in exited && pid !in reaped ensures ZombieWith(r, pid) {
      assert ZombieWith(ps, pid);
    }
  }

  /** Whoever still sleeps, sleeps as before. */
  ghost predicate OnlyWakes(ps: seq<Proc>, r: seq<Proc>) {
    && SameShape(ps, r)
    && forall i :: 0 <= i < |ps| ==>
         && r[i].cur_index == ps[i].cur_index
         && (r[i].state == SLEEPING ==> ps[i].state == SLEEPING && r[i].chan == ps[i].chan && r[i].place == ps[i].place)
  }

  lemma StayAwake(ps: seq<Proc>, r: seq<Proc>)
    requires SameShape(ps, r) && Awake(ps)
    requires forall i :: 0 <= i < |ps| && r[i].state == SLEEPING ==>
               ps[i].state == SLEEPING && r[i].chan == ps[i].chan && r[i].place == ps[i].place
    ensures Awake(r)
  {
    forall i | 0 <= i < |r| && r[i].state == SLEEPING ensures WellAsleep(r, i) {
      assert WellAsleep(ps, i);
    }
  }

  lemma WakesKeep(ps: seq<Proc>, r: seq<Proc>)
    requires OnlyWakes(ps, r) && Awake(ps) && Counted(ps)
    ensures Awake(r) && Counted(r)
  {
    StayAwake(ps, r);
    hide Awake;
    forall s | 0 <= s < |r| ensures Slack(r, s) >= 0 {
      SleepersFewer(ps, r, s);
      assert Slack(ps, s) >= 0;
    }
  }

  lemma WakeAllWakes(ps: seq<Proc>, ch: Chan)
    ensures OnlyWakes(ps, WakeAll(ps, ch))
  {
  }

  /** The table together with its history: who is setting up each EMBRYO, the status of every pid that exited, and the
      pids that were reaped. */
  datatype Sys = Sys(ps: seq<Proc>, nextpid: int, init: int, maker: map<int, int>, exited: map<int, int>,
      reaped: set<int>)

  ghost predicate Good(y: Sys) {
    && |y.ps| == NPROC
    && Pids(y.ps, y.nextpid) && Tree(y.ps, y.init) && Makers(y.ps, y.maker)
    && Reaping(y.ps, y.exited, y.reaped)
    && (forall pid :: pid in y.exited ==> pid < y.nextpid)
    && Awake(y.ps) && Counted(y.ps) && Placed(y.ps)
  }

  /** Any step that only wakes processes or moves them between RUNNABLE and RUNNING. */
  lemma MovesKeep(y: Sys, r: seq<Proc>)
    requires Good(y) && OnlyWakes(y.ps, r)
    ensures Good(y.(ps := r))
  {
    hide Pids, Tree, Makers, Reaping, Awake, Counted, Placed;
    ShapePids(y.ps, r, y.nextpid);
    ShapeTree(y.ps, r, y.init);
    ShapeMakers(y.ps, r, y.maker);
    ShapeReaping(y.ps, r, y.exited, y.reaped);
    ShapePlaced(y.ps, r);
    WakesKeep(y.ps, r);
  }

  lemma SleepAwake(ps: seq<Proc>, me: int, p: Proc)
    requires Awake(ps) && 0 <= me < |ps| && WellAsleep(ps[me := p], me) && SameShape(ps, ps[me := p])
    ensures Awake(ps[me := p])
  {
    var r := ps[me := p];
    forall i | 0 <= i < |r| && r[i].state == SLEEPING ensures WellAsleep(r, i) {
      assert i != me ==> WellAsleep(ps, i);
    }
  }

  /** A running process goes to sleep, with reason, and covered by the counter. */
  lemma SleepKeeps(y: Sys, me: int, ch: Chan, place: Place)
    requires Good(y) && 0 <= me < NPROC && y.ps[me].state == RUNNING
    requires forall s :: 0 <= s < NPROC && SleepsOn(Asleep(y.ps[me], ch, place), s) ==> Slack(y.ps, s) >= 1
    requires WellAsleep(y.ps[me := Asleep(y.ps[me], ch, place)], me) && PlaceOk(place, NPROC)
    ensures Good(y.(ps := y.ps[me := Asleep(y.ps[me], ch, place)]))
    ensures !place.InWaitpid? ==> SameSlack(y.ps, y.ps[me := Asleep(y.ps[me], ch, place)])
    ensures forall s :: 0 <= s < NPROC ==>
              Slack(y.ps[me := Asleep(y.ps[me], ch, place)], s) == Slack(y.ps, s)
                - if SleepsOn(Asleep(y.ps[me], ch, place), s) then 1 else 0
  {
    hide Pids, Tree, Makers, Reaping, Awake, Placed, WellAsleep, Slack, Sleepers;
    var r := y.ps[me := Asleep(y.ps[me], ch, place)];
    ShapePids(y.ps, r, y.nextpid);
    ShapeTree(y.ps, r, y.init);
    ShapeMakers(y.ps, r, y.maker);
    ShapeReaping(y.ps, r, y.exited, y.reaped);
    ShapePlaced(y.ps, r);
    SleepAwake(y.ps, me, r[me]);
    forall s | 0 <= s < NPROC
      ensures Slack(r, s) >= 0 && Slack(r, s) == Slack(y.ps, s) - if SleepsOn(r[me], s) then 1 else 0
    {
      assert Slack(y.ps, s) >= 0;
      SlackSet(y.ps, me, r[me], s);
    }
  }

  function Asleep(p: Proc, ch: Chan, place: Place): (r: Proc) {
    p.(state := SLEEPING, chan := ch, place := place)
  }

  // ---- reaping ----------------------------------------------------------------------------------------------

  /** Entry `z` is free again, without its pid, parent and mark; its status stays. */
  ghost predicate ClearedAt(ps: seq<Proc>, r: seq<Proc>, z: int) {
    && |r| == |ps| && 0 <= z < |ps| && (forall j :: 0 <= j < |ps| && j != z ==> r[j] == ps[j])
    && r[z] == ps[z].(state := UNUSED, pid := 0, parent := NOBODY, killed := false)
  }

  ghost predicate Nowhere(ps: seq<Proc>, pid: int) {
    forall i :: 0 <= i < |ps| ==> ps[i].pid != pid
  }

  function Cleared(p: Proc): (r: Proc) {
    p.(state := UNUSED, pid := 0, parent := NOBODY, killed := false)
  }

  lemma ReapTree(ps: seq<Proc>, z: int, init: int)
    requires Tree(ps, init) && 0 <= z < |ps| && ps[z].state == ZOMBIE
    ensures Tree(ps[z := Cleared(ps[z])], init)
  {
    var r := ps[z := Cleared(ps[z])];
    forall i | 0 <= i < |r| && Started(r[i]) && i != init ensures HasParent(r, i) {
      assert HasParent(ps, i);
    }
  }

  lemma ReapMakers(ps: seq<Proc>, z: int, maker: map<int, int>)
    requires Makers(ps, maker) && 0 <= z < |ps| && ps[z].state == ZOMBIE
    ensures Makers(ps[z := Cleared(ps[z])], maker)
  {
  }

  lemma ReapReaping(ps: seq<Proc>, z: int, nextpid: int, exited: map<int, int>, reaped: set<int>)
    requires Pids(ps, nextpid) && Reaping(ps, exited, reaped) && 0 <= z < |ps| && ps[z].state == ZOMBIE
    ensures Pids(ps[z := Cleared(ps[z])], nextpid)
    ensures Reaping(ps[z := Cleared(ps[z])], exited, reaped + {ps[z].pid})
  {
    var r, reaped' := ps[z := Cleared(ps[z])], reaped + {ps[z].pid};
    forall pid | pid in exited && pid !in reaped' ensures ZombieWith(r, pid) {
      assert ZombieWith(ps, pid);
      var i :| 0 <= i < |ps| && ps[i].state == ZOMBIE && ps[i].pid == pid;
      assert r[i] == ps[i];
    }
  }

  lemma ReapAwake(ps: seq<Proc>, z: int)
    requires Awake(ps) && 0 <= z < |ps| && ps[z].state == ZOMBIE
    ensures Awake(ps[z := Cleared(ps[z])])
  {
    var r := ps[z := Cleared(ps[z])];
    forall i | 0 <= i < |r| && r[i].state == SLEEPING ensures WellAsleep(r, i) {
      assert WellAsleep(ps, i);
    }
  }

  /** wait and waitpid on a ZOMBIE: its pid is reaped, with the status it exited with, for the first time. */
  lemma ReapKeeps(y: Sys, z: int)
    requires Good(y) && 0 <= z < NPROC && y.ps[z].state == ZOMBIE
    ensures Good(y.(ps := y.ps[z := Cleared(y.ps[z])], reaped := y.reaped + {y.ps[z].pid}))
    ensures SameSlack(y.ps, y.ps[z := Cleared(y.ps[z])])
    ensures y.ps[z].pid in y.exited && y.ps[z].pid !in y.reaped && y.ps[z].est == y.exited[y.ps[z].pid]
            && y.ps[z].pid >= 1
  {
    hide Pids, Tree, Makers, Reaping, Awake, Placed, Counted, SameSlack;
    ReapTree(y.ps, z, y.init);
    ReapMakers(y.ps, z, y.maker);
    ReapReaping(y.ps, z, y.nextpid, y.exited, y.reaped);
    ReapAwake(y.ps, z);
    PlacedSet(y.ps, z, Cleared(y.ps[z]));
    ReapSlack(y.ps, z);
    ZombieFacts(y.ps, z, y.nextpid, y.exited, y.reaped);
  }

  lemma ReapSlack(ps: seq<Proc>, z: int)
    requires Counted(ps) && 0 <= z < |ps| && ps[z].state == ZOMBIE
    ensures SameSlack(ps, ps[z := Cleared(ps[z])]) && Counted(ps[z := Cleared(ps[z])])
  {
    hide Slack;
    var r := ps[z := Cleared(ps[z])];
    forall s | 0 <= s < |ps| ensures Slack(r, s) == Slack(ps, s) >= 0 {
      SlackSet(ps, z, r[z], s);
      assert Slack(ps, s) >= 0;
    }
  }

  lemma ZombieFacts(ps: seq<Proc>, z: int, nextpid: int, exited: map<int, int>, reaped: set<int>)
    requires Pids(ps, nextpid) && Reaping(ps, exited, reaped) && 0 <= z < |ps| && ps[z].state == ZOMBIE
    ensures ps[z].pid in exited && ps[z].pid !in reaped && ps[z].est == exited[ps[z].pid] && ps[z].pid >= 1
  {
  }

  /** A call to wait or waitpid goes to sleep; or returns the pid and status of a process it reaped; or (waitpid only)
      returns the pid and status found in an entry that is not in use; or returns -1 with status -1. */
  datatype Outcome = Blocked | Reaped(pid: int, status: int) | Stale(pid: int, status: int) | None

  // ---- starting a process -----------------------------------------------------------------------------------

  function Fresh(p: Proc, pid: int): (r: Proc) {
    p.(state := EMBRYO, pid := pid, prio := 1, cur_index := 0, place := Away)
  }

  lemma NobodyOn(ps: seq<Proc>, s: int)
    requires Awake(ps) && 0 <= s < |ps| && ps[s].state == UNUSED
    ensures Sleepers(ps, s) == 0
  {
    forall i | 0 <= i < |ps| ensures !SleepsOn(ps[i], s) {
      assert ps[i].state == SLEEPING ==> WellAsleep(ps, i);
    }
    SleepersNone(ps, s);
  }

  // Replacing one entry, one invariant at a time.

  lemma PidsSet(ps: seq<Proc>, nextpid: int, i: int, p: Proc, nextpid': int)
    requires Pids(ps, nextpid) && 0 <= i < |ps| && nextpid <= nextpid' && 0 <= p.pid < nextpid'
    requires p.pid == ps[i].pid || p.pid >= nextpid
    requires p.state != UNUSED ==> p.pid >= 1
    ensures Pids(ps[i := p], nextpid')
  {
  }

  lemma TreeSet(ps: seq<Proc>, init: int, i: int, p: Proc)
    requires Tree(ps, init) && 0 <= i < |ps| && i != init
    requires Live(ps[i]) ==> Live(p) && p.pid == ps[i].pid
    requires Started(p) ==> 0 <= p.parent < |ps| && p.parent != i && Live(ps[p.parent]) && ps[p.parent].pid < p.pid
    requires !Started(p) ==> p.parent == NOBODY
    ensures Tree(ps[i := p], init)
  {
    var r := ps[i := p];
    forall j | 0 <= j < |r| && Started(r[j]) && j != init ensures HasParent(r, j) {
      assert j != i ==> HasParent(ps, j);
    }
  }

  lemma MakersSet(ps: seq<Proc>, maker: map<int, int>, i: int, p: Proc, me: int)
    requires Makers(ps, maker) && 0 <= i < |ps|
    requires Live(ps[i]) ==> Live(p) && p.pid == ps[i].pid
    requires p.state == EMBRYO ==> 0 <= me < |ps| && me != i && Live(ps[me]) && ps[me].pid < p.pid
    ensures Makers(ps[i := p], if p.state == EMBRYO then maker[i := me] else maker)
  {
  }

  lemma ReapingSet(ps: seq<Proc>, exited: map<int, int>, reaped: set<int>, i: int, p: Proc)
    requires Reaping(ps, exited, reaped) && 0 <= i < |ps| && ps[i].state != ZOMBIE && p.state != ZOMBIE
    requires p.state != UNUSED ==> p.pid !in exited
    ensures Reaping(ps[i := p], exited, reaped)
  {
    var r := ps[i := p];
    forall pid | pid in exited && pid !in reaped ensures ZombieWith(r, pid) {
      assert ZombieWith(ps, pid);
      var j :| 0 <= j < |ps| && ps[j].state == ZOMBIE && ps[j].pid == pid;
      assert r[j] == ps[j];
    }
  }

  lemma PlacedSet(ps: seq<Proc>, i: int, p: Proc)
    requires Placed(ps) && 0 <= i < |ps| && (p.place == ps[i].place || PlaceOk(p.place, |ps|))
    ensures Placed(ps[i := p])
  {
  }

  lemma AwakeSet(ps: seq<Proc>, i: int, p: Proc)
    requires Awake(ps) && 0 <= i < |ps| && ps[i].state != SLEEPING && p.state != SLEEPING
    requires p.state != ZOMBIE
    requires Sleepers(ps, i) == 0 || (p.state != UNUSED && p.pid == ps[i].pid)
    ensures Awake(ps[i := p])
  {
    var r := ps[i := p];
    forall j | 0 <= j < |r| && r[j].state == SLEEPING ensures WellAsleep(r, j) {
      assert WellAsleep(ps, j);
      if SleepsOn(ps[j], i) {
        SleepersSome(ps, i, j);
      }
    }
  }

  lemma SlacksSet(ps: seq<Proc>, i: int, p: Proc)
    requires Counted(ps) && 0 <= i < |ps| && ps[i].state != SLEEPING && p.state != SLEEPING
    requires p.cur_index == ps[i].cur_index || (p.cur_index == 0 && Sleepers(ps, i) == 0)
    ensures Counted(ps[i := p])
    ensures forall s :: 0 <= s < |ps| && s != i ==> Slack(ps[i := p], s) == Slack(ps, s)
    ensures p.cur_index == ps[i].cur_index ==> Slack(ps[i := p], i) == Slack(ps, i)
    ensures p.cur_index == 0 && Sleepers(ps, i) == 0 ==> Slack(ps[i := p], i) == 0
  {
    var r := ps[i := p];
    forall s | 0 <= s < |r|
      ensures Slack(r, s) >= 0 && Slack(r, s) == Slack(ps, s) + if s == i then p.cur_index - ps[i].cur_index else 0
    {
      assert Slack(ps, s) >= 0;
      SlackSet(ps, i, p, s);
    }
  }

  lemma EntryFacts(y: Sys, i: int)
    requires Good(y) && 0 <= i < NPROC
    ensures 0 <= y.ps[i].pid < y.nextpid && (y.ps[i].state != UNUSED ==> y.ps[i].pid >= 1)
    ensures i == y.init ==> Live(y.ps[i])
    ensures !Started(y.ps[i]) ==> y.ps[i].parent == NOBODY
    ensures y.ps[i].state != UNUSED && y.ps[i].state != ZOMBIE ==> y.ps[i].pid !in y.exited
    ensures y.ps[i].state == EMBRYO ==>
              i in y.maker && 0 <= y.maker[i] < NPROC && Live(y.ps[y.maker[i]]) && y.ps[y.maker[i]].pid < y.ps[i].pid
  {
  }

  /** allocproc: the new process has a pid nobody ever had, and nobody is counted as waiting for it. */
  lemma AllocKeeps(y: Sys, i: int, me: int)
    requires Good(y) && 0 <= i < NPROC && y.ps[i].state == UNUSED && 0 <= me < NPROC && Live(y.ps[me])
    ensures var r := y.ps[i := Fresh(y.ps[i], y.nextpid)];
            && Good(y.(ps := r, nextpid := y.nextpid + 1, maker := y.maker[i := me]))
            && forall s :: 0 <= s < NPROC ==> Slack(r, s) == if s == i then 0 else Slack(y.ps, s)
  {
    hide Pids, Tree, Makers, Reaping, Awake, Counted, Placed, Slack, Sleepers;
    var p := Fresh(y.ps[i], y.nextpid);
    EntryFacts(y, i);
    EntryFacts(y, me);
    NobodyOn(y.ps, i);
    PidsSet(y.ps, y.nextpid, i, p, y.nextpid + 1);
    TreeSet(y.ps, y.init, i, p);
    MakersSet(y.ps, y.maker, i, p, me);
    ReapingSet(y.ps, y.exited, y.reaped, i, p);
    PlacedSet(y.ps, i, p);
    AwakeSet(y.ps, i, p);
    SlacksSet(y.ps, i, p);
  }

  /** The end of a successful fork. */
  lemma ForkKeeps(y: Sys, i: int, me: int)
    requires Good(y) && 0 <= i < NPROC && y.ps[i].state == EMBRYO && i in y.maker && y.maker[i] == me
    ensures 0 <= me < NPROC && Live(y.ps[me])
    ensures var r := y.ps[i := y.ps[i].(state := RUNNABLE, parent := me)];
            Good(y.(ps := r)) && SameSlack(y.ps, r)
  {
    hide Pids, Tree, Makers, Reaping, Awake, Counted, Placed, Slack, Sleepers;
    var p := y.ps[i].(state := RUNNABLE, parent := me);
    EntryFacts(y, i);
    PidsSet(y.ps, y.nextpid, i, p, y.nextpid);
    TreeSet(y.ps, y.init, i, p);
    MakersSet(y.ps, y.maker, i, p, me);
    ReapingSet(y.ps, y.exited, y.reaped, i, p);
    PlacedSet(y.ps, i, p);
    AwakeSet(y.ps, i, p);
    SlacksSet(y.ps, i, p);
  }

  /** A fork that fails after allocproc leaves its pid in the unused entry: harmless exactly when nobody sleeps on it.
      */
  lemma ForkFails(y: Sys, i: int)
    requires Good(y) && 0 <= i < NPROC && y.ps[i].state == EMBRYO
    ensures var r := y.ps[i := y.ps[i].(state := UNUSED)];
            && (Good(y.(ps := r)) <==> Sleepers(y.ps, i) == 0)
            && SameSlack(y.ps, r)
  {
    hide Pids, Tree, Makers, Reaping, Awake, Counted, Placed, Slack, Sleepers;
    var p := y.ps[i].(state := UNUSED);
    EntryFacts(y, i);
    PidsSet(y.ps, y.nextpid, i, p, y.nextpid);
    TreeSet(y.ps, y.init, i, p);
    MakersSet(y.ps, y.maker, i, p, 0);
    ReapingSet(y.ps, y.exited, y.reaped, i, p);
    PlacedSet(y.ps, i, p);
    SlacksSet(y.ps, i, p);
    if Sleepers(y.ps, i) == 0 {
      AwakeSet(y.ps, i, p);
    } else if Awake(y.ps[i := p]) {
      NobodyOn(y.ps[i := p], i);
      SleepersSet(y.ps, i, p, i);
    }
  }

  // ---- exit -------------------------------------------------------------------------------------------------

  ghost predicate HasZombieChild(ps: seq<Proc>, me: int, n: int) {
    exists z :: 0 <= z < n <= |ps| && ps[z].parent == me && ps[z].state == ZOMBIE
  }

  /** One entry after a child of `me` may have passed to init, which is woken if it inherits a ZOMBIE. */
  ghost function Adopted(p: Proc, me: int, init: int, done: bool, zombie: bool): (r: Proc) {
    var q := if done && p.parent == me then p.(parent := init) else p;
    if zombie then Woken(q, OnProc(init)) else q
  }

  /** An entry after exit. */
  ghost function Left(p: Proc, itself: bool, me: int, parent: int, init: int, zombie: bool, st: int): (r: Proc) {
    if itself then p.(est := st, cur_index := 0, state := ZOMBIE)
    else Adopted(Woken(Woken(p, OnProc(parent)), OnProc(me)), me, init, true, zombie)
  }

  /** `r` is the table `ps` after `me` has exited with status `st`. */
  ghost predicate Exits(ps: seq<Proc>, r: seq<Proc>, me: int, init: int, st: int) {
    && |r| == |ps| && 0 <= me < |ps| && me != init && 0 <= init < |ps|
    && forall i :: 0 <= i < |ps| ==>
         r[i] == Left(ps[i], i == me, me, ps[me].parent, init, HasZombieChild(ps, me, |ps|), st)
  }

  ghost predicate CanExit(ps: seq<Proc>, me: int, init: int) {
    0 <= me < |ps| && me != init && ps[me].state == RUNNING
  }

  /** What exit does to everything but who sleeps. */
  ghost predicate ExitShape(ps: seq<Proc>, r: seq<Proc>, me: int, init: int, st: int) {
    && |r| == |ps| && 0 <= me < |ps| && me != init && 0 <= init < |ps|
    && r[me].pid == ps[me].pid && r[me].parent == ps[me].parent && r[me].est == st && r[me].state == ZOMBIE
    && forall i :: 0 <= i < |ps| && i != me ==>
         && r[i].pid == ps[i].pid && r[i].est == ps[i].est
         && r[i].parent == (if ps[i].parent == me then init else ps[i].parent)
         && (r[i].state == ps[i].state || (Live(ps[i]) && Live(r[i])))
  }

  lemma ExitsShape(ps: seq<Proc>, r: seq<Proc>, me: int, init: int, st: int)
    requires Exits(ps, r, me, init, st)
    ensures ExitShape(ps, r, me, init, st)
  {
    hide HasZombieChild;
  }

  lemma ExitPids(ps: seq<Proc>, r: seq<Proc>, me: int, init: int, st: int, nextpid: int)
    requires ExitShape(ps, r, me, init, st) && CanExit(ps, me, init) && Pids(ps, nextpid)
    ensures Pids(r, nextpid)
  {
  }

  lemma ExitParent(ps: seq<Proc>, r: seq<Proc>, me: int, init: int, st: int, nextpid: int, i: int)
    requires ExitShape(ps, r, me, init, st) && CanExit(ps, me, init) && Pids(ps, nextpid) && Tree(ps, init)
    requires 0 <= i < |r| && Started(r[i]) && i != init
    ensures HasParent(r, i)
  {
    assert HasParent(ps, i) && ps[i].pid != ps[init].pid;
    assert ps[i].pid >= 1 == ps[init].pid;
  }

  lemma ExitTree(ps: seq<Proc>, r: seq<Proc>, me: int, init: int, st: int, nextpid: int)
    requires ExitShape(ps, r, me, init, st) && CanExit(ps, me, init) && Pids(ps, nextpid) && Tree(ps, init)
    ensures Tree(r, init) && 0 <= ps[me].parent < |ps| && ps[me].parent != me
  {
    assert HasParent(ps, me);
    forall i | 0 <= i < |r| && Started(r[i]) && i != init ensures HasParent(r, i) {
      ExitParent(ps, r, me, init, st, nextpid, i);
    }
  }

  lemma ExitMakers(ps: seq<Proc>, r: seq<Proc>, me: int, init: int, st: int, maker: map<int, int>)
    requires ExitShape(ps, r, me, init, st) && CanExit(ps, me, init) && Makers(ps, maker)
    requires forall i :: 0 <= i < |ps| && ps[i].state == EMBRYO ==> i in maker && maker[i] != me
    ensures Makers(r, maker)
  {
    forall i | 0 <= i < |r| && r[i].state == EMBRYO
      ensures i in maker && 0 <= maker[i] < |r| && Live(r[maker[i]]) && r[maker[i]].pid < r[i].pid
    {
      assert ps[i].state == EMBRYO;
    }
  }

  lemma ExitReaping(ps: seq<Proc>, r: seq<Proc>, me: int, init: int, st: int, nextpid: int, exited: map<int, int>,
                    reaped: set<int>)
    requires ExitShape(ps, r, me, init, st) && CanExit(ps, me, init) && Pids(ps, nextpid) && Reaping(ps, exited, reaped)
    ensures Reaping(r, exited[ps[me].pid := st], reaped) && ps[me].pid !in exited
  {
    var exited' := exited[ps[me].pid := st];
    forall pid | pid in exited' && pid !in reaped ensures ZombieWith(r, pid) {
      if pid == ps[me].pid {
        assert r[me].state == ZOMBIE && r[me].pid == pid;
      } else {
        assert ZombieWith(ps, pid);
        var z :| 0 <= z < |ps| && ps[z].state == ZOMBIE && ps[z].pid == pid;
        assert r[z].state == ZOMBIE && r[z].pid == pid;
      }
    }
  }

  /** Nobody is left asleep in wait with a ZOMBIE child, or in waitpid on the process that exits. */
  lemma ExitAwake(ps: seq<Proc>, r: seq<Proc>, me: int, init: int, st: int)
    requires Exits(ps, r, me, init, st) && CanExit(ps, me, init) && Awake(ps) && ps[me].parent != me
    ensures Awake(r)
  {
    hide Exits, CanExit, WellAsleep;
    forall i | 0 <= i < |r| && r[i].state == SLEEPING ensures WellAsleep(r, i) {
      ExitWaiter(ps, r, me, init, st, i);
    }
  }

  lemma ExitWaiter(ps: seq<Proc>, r: seq<Proc>, me: int, init: int, st: int, i: int)
    requires Exits(ps, r, me, init, st) && CanExit(ps, me, init) && Awake(ps) && ps[me].parent != me
    requires 0 <= i < |r| && r[i].state == SLEEPING
    ensures WellAsleep(r, i)
  {
    assert WellAsleep(ps, i);
    if ps[i].place == InWait {
      forall z | 0 <= z < |r| && r[z].state == ZOMBIE ensures r[z].parent != i {
        assert z != me ==> ps[z].state == ZOMBIE;
      }
    }
  }

  /** exit wakes all who wait for `me`, and everyone asleep on its parent, and on init if that inherits a ZOMBIE. */
  lemma ExitSleepers(ps: seq<Proc>, r: seq<Proc>, me: int, init: int, st: int, s: int)
    requires Exits(ps, r, me, init, st) && CanExit(ps, me, init) && 0 <= s < |ps|
    ensures Sleepers(r, s) ==
              if s == me || s == ps[me].parent
                  || (s == init && HasZombieChild(ps, me, |ps|)) then 0 else Sleepers(ps, s)
  {
    hide HasZombieChild, Sleepers;
    var gone := s == me || s == ps[me].parent || (s == init && HasZombieChild(ps, me, |ps|));
    forall i | 0 <= i < |r| ensures SleepsOn(r[i], s) <==> SleepsOn(ps[i], s) && !gone {
    }
    hide Exits;
    if gone {
      SleepersNone(r, s);
    } else {
      SleepersFewer(ps, r, s);
    }
  }

  /** Which slots' counters run ahead because of an exit: those whose sleepers it wakes by wakeup1. */
  lemma ExitSlack(ps: seq<Proc>, r: seq<Proc>, me: int, init: int, st: int, s: int)
    requires Exits(ps, r, me, init, st) && CanExit(ps, me, init) && 0 <= s < |ps|
    ensures Slack(r, s) == if s == me then 0
                           else if s == ps[me].parent
                               || (s == init && HasZombieChild(ps, me, |ps|)) then ps[s].cur_index
                           else Slack(ps, s)
    ensures s != me && Slack(ps, s) == 0 ==>
              (Slack(r, s) == 0 <==>
                 Sleepers(ps, s) == 0 || !(s == ps[me].parent || (s == init && HasZombieChild(ps, me, |ps|))))
  {
    ExitSleepers(ps, r, me, init, st, s);
    hide HasZombieChild, Sleepers;
    assert s != me ==> r[s].cur_index == ps[s].cur_index;
  }

  lemma ExitKeeps(y: Sys, r: seq<Proc>, me: int, st: int)
    requires Good(y) && Exits(y.ps, r, me, y.init, st) && CanExit(y.ps, me, y.init)
    requires forall i :: 0 <= i < NPROC && y.ps[i].state == EMBRYO ==> i in y.maker && y.maker[i] != me
    ensures Good(y.(ps := r, exited := y.exited[y.ps[me].pid := st])) && y.ps[me].pid !in y.exited
  {
    hide Pids, Tree, Makers, Reaping, Awake, Placed, Slack, Sleepers, HasZombieChild, Left;
    EntryFacts(y, me);
    ExitsShape(y.ps, r, me, y.init, st);
    ExitPids(y.ps, r, me, y.init, st, y.nextpid);
    ExitTree(y.ps, r, me, y.init, st, y.nextpid);
    ExitMakers(y.ps, r, me, y.init, st, y.maker);
    ExitReaping(y.ps, r, me, y.init, st, y.nextpid, y.exited, y.reaped);
    ExitAwake(y.ps, r, me, y.init, st);
    ExitPlaced(y.ps, r, me, y.init, st);
    forall s | 0 <= s < |r| ensures Slack(r, s) >= 0 {
      assert Slack(y.ps, s) >= 0;
      ExitSlack(y.ps, r, me, y.init, st, s);
      SlackBelow(y.ps, s);
    }
  }

  lemma ExitPlaced(ps: seq<Proc>, r: seq<Proc>, me: int, init: int, st: int)
    requires Exits(ps, r, me, init, st) && Placed(ps)
    ensures Placed(r)
  {
    hide HasZombieChild;
    forall i | 0 <= i < |r| ensures r[i].place == ps[i].place {
    }
  }

  lemma SlackBelow(ps: seq<Proc>, s: int)
    requires 0 <= s < |ps|
    ensures Slack(ps, s) <= ps[s].cur_index
  {
  }

  // ---- the loop in exit -------------------------------------------------------------------------------------

  /** One call of wakeuppid(me): each sleeper woken lowers the counter. */
  ghost function PidPass(ps: seq<Proc>, me: int): (r: seq<Proc>)
    requires 0 <= me < |ps|
    ensures |r| == |ps|
  {
    var w := WakeAll(ps, OnProc(me));
    w[me := w[me].(cur_index := ps[me].cur_index - Sleepers(ps, me))]
  }

  ghost function Passes(ps: seq<Proc>, me: int, k: nat): (r: seq<Proc>)
    requires 0 <= me < |ps|
    ensures |r| == |ps|
  {
    if k == 0 then ps else PidPass(Passes(ps, me, k - 1), me)
  }

  /** After the first pass the counter stays where it is. */
  lemma {:induction false} PassesSettle(ps: seq<Proc>, me: int, k: nat)
    requires 0 <= me < |ps| && ps[me].state != SLEEPING && k >= 1
    ensures var r := Passes(ps, me, k);
            r[me].cur_index == Slack(ps, me) && Sleepers(r, me) == 0 && r[me].state != SLEEPING
  {
    var prev := Passes(ps, me, k - 1);
    if k > 1 {
      PassesSettle(ps, me, k - 1);
    }
    var w := WakeAll(prev, OnProc(me));
    SleepersWoken(prev, w, OnProc(me), me);
    SleepersSet(w, me, w[me].(cur_index := prev[me].cur_index - Sleepers(prev, me)), me);
  }

  /** exit's wake loop ends exactly when the counter equals the number of sleepers; otherwise it spins
      for ever with ptable.lock held. */
  lemma ExitLoopEnds(ps: seq<Proc>, me: int)
    requires 0 <= me < |ps| && ps[me].state != SLEEPING && Slack(ps, me) >= 0
    ensures (exists k: nat :: Passes(ps, me, k)[me].cur_index <= 0) <==> Slack(ps, me) == 0
  {
    PassesSettle(ps, me, 1);
    if k: nat :| Passes(ps, me, k)[me].cur_index <= 0 {
      if k >= 1 {
        PassesSettle(ps, me, k);
      } else {
        assert Passes(ps, me, 0) == ps;
      }
    }
  }

  /** What userinit leaves: init in slot 0 and nothing else. */
  ghost predicate Booted(ps: seq<Proc>) {
    && |ps| == NPROC && ps[0] == Proc(RUNNABLE, 1, NOBODY, NoChan, false, 1, 0, 0, Away)
    && forall i :: 0 < i < NPROC ==> ps[i] == Proc(UNUSED, 0, NOBODY, NoChan, false, 0, 0, 0, Away)
  }

  lemma BootShape(ps: seq<Proc>)
    requires Booted(ps)
    ensures Pids(ps, 2) && Makers(ps, map[]) && Reaping(ps, map[], {})
  {
  }

  lemma BootTree(ps: seq<Proc>)
    requires Booted(ps)
    ensures Tree(ps, 0)
  {
    forall i | 0 <= i < |ps| && Started(ps[i]) ensures i == 0 {
    }
  }

  lemma BootSlack(ps: seq<Proc>)
    requires Booted(ps)
    ensures Awake(ps) && Placed(ps) && Counted(ps) && forall s :: 0 <= s < NPROC ==> Slack(ps, s) == 0
  {
    forall s | 0 <= s < NPROC ensures Slack(ps, s) == 0 {
      SleepersNone(ps, s);
    }
    hide Slack;
  }

  lemma BootGood(ps: seq<Proc>)
    requires Booted(ps)
    ensures Good(Sys(ps, 2, 0, map[], map[], {}))
    ensures forall s :: 0 <= s < NPROC ==> Slack(ps, s) == 0
  {
    hide Pids, Makers, Reaping, Tree, Awake, Placed, Counted, Slack;
    BootShape(ps);
    BootTree(ps);
    BootSlack(ps);
  }

  /** Entry `i` is the first with that pid; no pid but 0 is there twice. */
  ghost predicate FirstPid(ps: seq<Proc>, i: int, pid: int) {
    PidIn(ps, i, pid) && forall j :: 0 <= j < i ==> ps[j].pid != pid
  }

  /** What kill does to entry `i`: it is marked, and gets to run if it slept. */
  ghost predicate MarkedAt(ps: seq<Proc>, r: seq<Proc>, i: int) {
    && |r| == |ps| && 0 <= i < |ps| && (forall j :: 0 <= j < |ps| && j != i ==> r[j] == ps[j])
    && r[i].killed && r[i].state == (if ps[i].state == SLEEPING then RUNNABLE else ps[i].state)
    && r[i] == ps[i].(killed := true, state := r[i].state)
  }

  function Killed(p: Proc): (r: Proc) {
    p.(killed := true, state := if p.state == SLEEPING then RUNNABLE else p.state)
  }

  /** Process `i` has that pid and sleeps in waitpid on slot `s`. */
  predicate WaitsFor(ps: seq<Proc>, i: int, pid: int, s: int) {
    0 <= i < |ps| && ps[i].pid == pid && SleepsOn(ps[i], s)
  }

  /** Killing a process that sleeps in waitpid on `me` leaves the counter one ahead: no number of passes ends me's exit.
      */
  lemma KilledWaiter(ps: seq<Proc>, me: int, w: int, k: nat)
    requires 0 <= me < |ps| && 0 <= w < |ps| && ps[me].state != SLEEPING && SleepsOn(ps[w], me) && Slack(ps, me) >= 0
    ensures Passes(ps[w := Killed(ps[w])], me, k)[me].cur_index > 0
  {
    var r := ps[w := Killed(ps[w])];
    SlackSet(ps, w, Killed(ps[w]), me);
    ExitLoopEnds(r, me);
    hide Slack, Passes;
    assert Slack(r, me) > 0;
  }

  ghost predicate Childless(ps: seq<Proc>, me: int) {
    forall i :: 0 <= i < |ps| ==> ps[i].parent != me
  }

  /** Entry `z` is the first zombie child of `me`. */
  ghost predicate FirstChildZombie(ps: seq<Proc>, z: int, me: int, pid: int) {
    && 0 <= z < |ps| && ps[z].state == ZOMBIE && ps[z].parent == me && ps[z].pid == pid
    && forall i :: 0 <= i < z && ps[i].state == ZOMBIE ==> ps[i].parent != me
  }

  function At(ps: seq<Proc>, me: int, place: Place): (r: seq<Proc>)
    requires 0 <= me < |ps|
  {
    ps[me := ps[me].(place := place)]
  }

  predicate PidIn(ps: seq<Proc>, z: int, pid: int) {
    0 <= z < |ps| && ps[z].pid == pid
  }

  function CountUp(ps: seq<Proc>, s: int): (r: seq<Proc>)
    requires 0 <= s < |ps|
  {
    ps[s := ps[s].(cur_index := ps[s].cur_index + 1)]
  }

  function FallAsleep(ps: seq<Proc>, me: int, s: int, pid: int): (r: seq<Proc>)
    requires 0 <= me < |ps|
  {
    ps[me := Asleep(ps[me], OnProc(s), InWaitpid(s, pid))]
  }

  /** `me` counts itself in entry `s` and falls asleep on it. */
  predicate WaitsOn(ps: seq<Proc>, r: seq<Proc>, me: int, s: int, pid: int) {
    0 <= me < |ps| && 0 <= s < |ps| && r == FallAsleep(CountUp(ps, s), me, s, pid)
  }

  /** No entry from `a` up to `b` has that pid. */
  ghost predicate NonePid(ps: seq<Proc>, a: int, b: int, pid: int) {
    forall i :: 0 <= i < |ps| && a <= i < b ==> ps[i].pid != pid
  }

  /** Entry `z` is the one with that pid that waitpid comes to: from the start of the table or, after a sleep, from the
      entry after the one it slept on and then, unless it was killed, from the start. */
  ghost predicate Meets(ps: seq<Proc>, me: int, pid: int, z: int)
    requires 0 <= me < |ps|
  {
    var from := if ps[me].place.InWaitpid? then ps[me].place.slot + 1 else 0;
    && PidIn(ps, z, pid)
    && (if from <= z then NonePid(ps, from, z, pid)
        else !ps[me].killed && NonePid(ps, from, |ps|, pid) && NonePid(ps, 0, z, pid))
  }

  /** waitpid reaps the zombie with that pid. */
  ghost predicate PidReaped(ps: seq<Proc>, r: seq<Proc>, me: int, pid: int)
    requires 0 <= me < |ps|
  {
    exists z :: Meets(ps, me, pid, z) && ps[z].state == ZOMBIE && ClearedAt(ps[me := ps[me].(place := Away)], r, z)
  }

  /** waitpid finds an unused entry that still has the pid. */
  ghost predicate PidStale(ps: seq<Proc>, me: int, pid: int, status: int)
    requires 0 <= me < |ps|
  {
    exists z :: Meets(ps, me, pid, z) && ps[z].state == UNUSED && status == ps[z].est
  }

  /** waitpid counts itself in the entry of the process with that pid and falls asleep on it. */
  ghost predicate PidBlocks(ps: seq<Proc>, r: seq<Proc>, me: int, pid: int)
    requires 0 <= me < |ps|
  {
    exists z :: Meets(ps, me, pid, z) && Pending(ps, z, pid) && CountedAsleep(ps, r, me, z, pid)
  }

  ghost predicate CountedAsleep(ps: seq<Proc>, r: seq<Proc>, me: int, z: int, pid: int)
    requires 0 <= me < |ps|
  {
    && 0 <= z < |ps| == |r| && (forall i :: 0 <= i < |ps| && i != me && i != z ==> r[i] == ps[i])
    && r[z].cur_index == ps[z].cur_index + 1 && (z != me ==> r[z] == ps[z].(cur_index := ps[z].cur_index + 1))
    && r[me] == ps[me].(state := SLEEPING, chan := OnProc(z), place := InWaitpid(z, pid), cur_index := r[me].cur_index)
    && (z != me ==> r[me].cur_index == ps[me].cur_index)
  }

  lemma CountUpKeeps(y: Sys, s: int)
    requires Good(y) && 0 <= s < NPROC
    ensures Good(y.(ps := CountUp(y.ps, s)))
    ensures forall x :: 0 <= x < NPROC ==> Slack(CountUp(y.ps, s), x) == Slack(y.ps, x) + if x == s then 1 else 0
    ensures Slack(CountUp(y.ps, s), s) >= 1
  {
    hide Pids, Tree, Makers, Reaping, Awake, Placed, Slack;
    var r := CountUp(y.ps, s);
    ShapePids(y.ps, r, y.nextpid);
    ShapeTree(y.ps, r, y.init);
    ShapeMakers(y.ps, r, y.maker);
    ShapeReaping(y.ps, r, y.exited, y.reaped);
    ShapePlaced(y.ps, r);
    StayAwake(y.ps, r);
    forall x | 0 <= x < NPROC ensures Slack(r, x) >= 0 && Slack(r, x) == Slack(y.ps, x) + if x == s then 1 else 0 {
      assert Slack(y.ps, x) >= 0;
      SlackSet(y.ps, s, r[s], x);
    }
    assert Slack(y.ps, s) >= 0;
  }

  lemma SlackTrans(a: seq<Proc>, b: seq<Proc>, c: seq<Proc>)
    requires SameSlack(a, b) && SameSlack(b, c)
    ensures SameSlack(a, c)
  {
  }

  /** Whoever sleeps on entry `me` does so in waitpid. */
  ghost predicate OnlyWaiters(ps: seq<Proc>, me: int) {
    forall i :: 0 <= i < |ps| && ps[i].state == SLEEPING && ps[i].chan == OnProc(me) ==> ps[i].place.InWaitpid?
  }

  lemma PrefixNone(ps: seq<Proc>, s: int)
    ensures Sleepers(ps[..0], s) == 0
  {
  }

  lemma PrefixNext(ps: seq<Proc>, p: int, s: int)
    requires 0 <= p < |ps|
    ensures Sleepers(ps[..p + 1], s) == Sleepers(ps[..p], s) + if SleepsOn(ps[p], s) then 1 else 0
  {
    assert ps[..p + 1][..p] == ps[..p];
  }

  /** With an exact counter, a counter of 0 means nobody sleeps, and one pass wakes everybody. */
  lemma NobodyLeft(ps: seq<Proc>, me: int)
    requires 0 <= me < |ps| && ps[me].state != SLEEPING && OnlyWaiters(ps, me) && Slack(ps, me) == 0
    ensures ps[me].cur_index <= 0 ==>
              ps[me].cur_index == 0 && forall i :: 0 <= i < |ps| && i != me ==> ps[i] == Woken(ps[i], OnProc(me))
    ensures PidPass(ps, me)[me] == ps[me].(cur_index := 0)
  {
    if ps[me].cur_index <= 0 {
      forall i | 0 <= i < |ps| && i != me ensures ps[i] == Woken(ps[i], OnProc(me)) {
        if SleepsOn(ps[i], me) {
          SleepersSome(ps, me, i);
        }
      }
    }
  }

  lemma WokenCount(p: Proc, ch: Chan)
    ensures Woken(p, ch).cur_index == p.cur_index
  {
  }

  lemma ZombieNext(ps: seq<Proc>, me: int, p: int)
    requires 0 <= p < |ps|
    ensures HasZombieChild(ps, me, p + 1) <==>
            HasZombieChild(ps, me, p)
            || (ps[p].parent == me && ps[p].state == ZOMBIE)
  {
    if HasZombieChild(ps, me, p) {
      var z :| 0 <= z < p && ps[z].parent == me && ps[z].state == ZOMBIE;
      assert z < p + 1;
    }
  }

  lemma ZombieSame(ps: seq<Proc>, r: seq<Proc>, me: int)
    requires |r| == |ps|
    requires forall i :: 0 <= i < |ps| ==>
             r[i].parent == ps[i].parent
             && (r[i].state == ZOMBIE <==> ps[i].state == ZOMBIE)
    ensures HasZombieChild(r, me, |r|) <==> HasZombieChild(ps, me, |ps|)
  {
  }

  lemma SlackElsewhere(ps: seq<Proc>, r: seq<Proc>, ch: Chan, s: int)
    requires r == WakeAll(ps, ch) && ch != OnProc(s) && 0 <= s < |ps|
    ensures Slack(r, s) == Slack(ps, s)
  {
    SleepersWoken(ps, r, ch, s);
  }

  class Table {
    var ps: seq<Proc>
    var nextpid: int
    const init: int
    ghost var maker: map<int, int>
    ghost var exited: map<int, int>
    ghost var reaped: set<int>

    ghost function Now(): (y: Sys)
      reads this
    {
      Sys(ps, nextpid, init, maker, exited, reaped)
    }

    ghost predicate Valid()
      reads this
    {
      Good(Now())
    }

    constructor ()
      ensures Valid() && Booted(ps) && nextpid == 2 && exited == map[] && reaped == {}
      ensures forall s :: 0 <= s < NPROC ==> Slack(ps, s) == 0
    {
      hide Good, Slack;
      init, nextpid := 0, 2;
      ps := [Free().(state := RUNNABLE, pid := 1, prio := 1)] + seq(NPROC - 1, _ => Free());
      maker, exited, reaped := map[], map[], {};
      new;
      BootGood(ps);
    }

    /** Entry `i` was replaced, waking at most that process. */
    lemma Replaced(was: Sys, i: int, p: Proc)
      requires Good(was) && 0 <= i < NPROC && OnlyWakes(was.ps, was.ps[i := p]) && Now() == was.(ps := was.ps[i := p])
      ensures Valid()
      ensures forall s :: 0 <= s < NPROC ==>
                Slack(ps, s) == Slack(was.ps, s) + if SleepsOn(was.ps[i], s) && !SleepsOn(p, s) then 1 else 0
    {
      MovesKeep(was, ps);
      forall s | 0 <= s < NPROC
          ensures Slack(ps, s) == Slack(was.ps, s) + if SleepsOn(was.ps[i], s) && !SleepsOn(p, s) then 1 else 0 {
        SlackSet(was.ps, i, p, s);
      }
    }

    lemma OnlyOne(p: int, pid: int)
      requires Valid() && 0 <= p < NPROC && ps[p].pid == pid
      ensures forall s :: (exists i :: WaitsFor(ps, i, pid, s)) <==> SleepsOn(ps[p], s)
    {
      forall s ensures (exists i :: WaitsFor(ps, i, pid, s)) <==> SleepsOn(ps[p], s) {
        if SleepsOn(ps[p], s) {
          assert WaitsFor(ps, p, pid, s);
        }
      }
    }

    /** The scheduler picks a process; if it had been asleep it leaves `sleep`. */
    method Dispatch(i: int)
      requires Valid() && 0 <= i < NPROC && |ps| == NPROC && ps[i].state == RUNNABLE
      modifies this`ps
      ensures Valid() && ps == old(ps)[i := old(ps)[i].(state := RUNNING, chan := NoChan)]
      ensures SameSlack(old(ps), ps)
    {
      hide Good, Slack;
      ps := ps[i := ps[i].(state := RUNNING, chan := NoChan)];
      Replaced(old(Now()), i, ps[i]);
    }

    /** yield */
    method Yield(me: int)
      requires Valid() && 0 <= me < NPROC && |ps| == NPROC && ps[me].state == RUNNING
      modifies this`ps
      ensures Valid() && ps == old(ps)[me := old(ps)[me].(state := RUNNABLE)]
      ensures SameSlack(old(ps), ps)
    {
      hide Good, Slack;
      ps := ps[me := ps[me].(state := RUNNABLE)];
      Replaced(old(Now()), me, ps[me]);
    }

    /** sleep on anything but a process table entry */
    method Sleep(me: int, id: int)
      requires Valid() && 0 <= me < NPROC && |ps| == NPROC && ps[me].state == RUNNING
      modifies this`ps
      ensures Valid() && ps == old(ps)[me := old(ps)[me].(state := SLEEPING, chan := Other(id), place := Away)]
      ensures SameSlack(old(ps), ps)
    {
      hide Good, Slack;
      SleepKeeps(Now(), me, Other(id), Away);
      ps := ps[me := Asleep(ps[me], Other(id), Away)];
    }

    /** kill: the process with that pid (and for pid 0 the first unused entry) is marked, and woken if asleep. */
    method Kill(pid: int) returns (r: int)
      requires Valid() && |ps| == NPROC
      modifies this`ps
      ensures Valid()
      ensures r == if exists i :: PidIn(old(ps), i, pid) then 0 else -1
      ensures r == -1 ==> ps == old(ps)
      ensures r == 0 ==> exists i :: FirstPid(old(ps), i, pid) && MarkedAt(old(ps), ps, i)
      ensures forall s :: 0 <= s < NPROC ==>
                Slack(ps, s) == old(Slack(ps, s)) + if exists i :: WaitsFor(old(ps), i, pid, s) then 1 else 0
    {
      hide Good, Slack;
      var p := 0;
      while p < |ps|
        invariant 0 <= p <= |ps| && ps == old(ps)
        invariant forall i :: 0 <= i < p ==> ps[i].pid != pid
      {
        if ps[p].pid == pid {
          assert FirstPid(old(ps), p, pid) && PidIn(old(ps), p, pid);
          OnlyOne(p, pid);
          ps := ps[p := Killed(ps[p])];
          Replaced(old(Now()), p, ps[p]);
          return 0;
        }
        p := p + 1;
      }
      return -1;
    }

    /** allocproc, called by a running process that is forking. */
    method Allocproc(me: int) returns (i: int)
      requires Valid() && |ps| == NPROC && 0 <= me < NPROC && ps[me].state == RUNNING && nextpid < INT_MAX
      modifies this`ps, this`nextpid, this`maker
      ensures Valid()
      ensures i == -1 ==> ps == old(ps) && nextpid == old(nextpid) && forall j :: 0 <= j < NPROC ==>
              ps[j].state != UNUSED
      ensures i != -1 ==>
                && 0 <= i < NPROC && old(ps)[i].state == UNUSED && |ps| == NPROC
                && ps[i] == old(ps)[i].(state := EMBRYO, pid := old(nextpid), prio := 1, cur_index := 0, place := Away)
                && (forall j :: 0 <= j < NPROC && j != i ==> ps[j] == old(ps)[j])
                && (forall j :: 0 <= j < i ==> old(ps)[j].state != UNUSED)
                && nextpid == old(nextpid) + 1 && maker == old(maker)[i := me]
                && forall s :: 0 <= s < NPROC ==> Slack(ps, s) == if s == i then 0 else old(Slack(ps, s))
    {
      hide Good, Slack;
      i := 0;
      while i < |ps|
        invariant 0 <= i <= |ps| && ps == old(ps)
        invariant forall j :: 0 <= j < i ==> ps[j].state != UNUSED
      {
        if ps[i].state == UNUSED {
          AllocKeeps(Now(), i, me);
          ps := ps[i := Fresh(ps[i], nextpid)];
          nextpid := nextpid + 1;
          maker := maker[i := me];
          return;
        }
        i := i + 1;
      }
      i := -1;
    }

    /** The rest of fork, when copyuvm succeeds: the child starts, with the caller as its parent. */
    method ForkDone(me: int, np: int) returns (pid: int)
      requires Valid() && |ps| == NPROC && 0 <= np < NPROC && ps[np].state == EMBRYO && np in maker && maker[np] == me
      modifies this`ps
      ensures Valid() && SameSlack(old(ps), ps)
      ensures ps == old(ps)[np := old(ps)[np].(state := RUNNABLE, parent := me)] && pid == ps[np].pid
    {
      hide Good, SameSlack;
      ForkKeeps(Now(), np, me);
      pid := ps[np].pid;
      ps := ps[np := ps[np].(state := RUNNABLE, parent := me)];
    }

    /** The rest of fork or allocproc, when memory runs out. */
    method ForkFailed(np: int)
      requires Valid() && |ps| == NPROC && 0 <= np < NPROC && ps[np].state == EMBRYO
      modifies this`ps
      ensures Valid() <==> old(Sleepers(ps, np)) == 0
      ensures SameSlack(old(ps), ps) && ps == old(ps)[np := old(ps)[np].(state := UNUSED)]
    {
      hide Good, SameSlack;
      ForkFails(Now(), np);
      ps := ps[np := ps[np].(state := UNUSED)];
    }

    lemma PidGone(z: int)
      requires Valid() && |ps| == NPROC && 0 <= z < NPROC && ps[z].state == ZOMBIE
      ensures ps[z].pid >= 1 && forall i :: 0 <= i < NPROC && i != z ==> ps[i].pid != ps[z].pid
    {
    }

    /** The clean-up of a ZOMBIE in wait and waitpid. */
    method Reap(z: int) returns (pid: int, status: int)
      requires Valid() && |ps| == NPROC && 0 <= z < NPROC && ps[z].state == ZOMBIE
      modifies this`ps, this`reaped
      ensures Valid() && SameSlack(old(ps), ps)
      ensures ClearedAt(old(ps), ps, z) && pid == old(ps)[z].pid && pid >= 1 && Nowhere(ps, pid)
      ensures pid in exited && status == exited[pid] && pid !in old(reaped) && reaped == old(reaped) + {pid}
    {
      hide Good, SameSlack;
      ReapKeeps(Now(), z);
      PidGone(z);
      pid, status := ps[z].pid, ps[z].est;
      ps := ps[z := Cleared(ps[z])];
      reaped := reaped + {pid};
    }

    /** wait, from its start or from waking up, to its next sleep or its return. */
    method Wait(me: int) returns (out: Outcome)
      requires Valid() && |ps| == NPROC && 0 <= me < NPROC && ps[me].state == RUNNING && !ps[me].place.InWaitpid?
      modifies this`ps, this`reaped
      ensures Valid() && SameSlack(old(ps), ps)
      ensures !out.Stale? && (!out.Reaped? ==> reaped == old(reaped) && NoZombieChild(old(ps), me))
      ensures out.Reaped? ==>
                && out.pid in exited && out.status == exited[out.pid] && out.pid !in old(reaped)
                && reaped == old(reaped) + {out.pid} && Nowhere(ps, out.pid)
                && exists z :: FirstChildZombie(old(ps), z, me, out.pid)
                    && ClearedAt(old(ps)[me := old(ps)[me].(place := Away)], ps, z)
      ensures out.None? <==> NoZombieChild(old(ps), me) && (old(ps)[me].killed || Childless(old(ps), me))
      ensures out.None? ==> ps == old(ps)[me := old(ps)[me].(place := Away)]
      ensures out.Blocked? ==> ps == old(ps)[me := old(ps)[me].(state := SLEEPING, chan := OnProc(me), place := InWait)]
    {
      hide Good, Slack, SameSlack;
      MoveAway(me);
      var havekids := false;
      var p := 0;
      while p < |ps|
        invariant 0 <= p <= |ps| == NPROC && ps == At(old(ps), me, Away) && Valid() && reaped == old(reaped)
        invariant SameSlack(old(ps), ps)
        invariant forall i :: 0 <= i < p && old(ps)[i].parent == me ==> havekids && old(ps)[i].state != ZOMBIE
        invariant havekids ==> !Childless(old(ps), me)
      {
        assert ps[p].parent == old(ps)[p].parent && ps[p].state == old(ps)[p].state;
        if ps[p].parent == me {
          havekids := true;
          if ps[p].state == ZOMBIE {
            ghost var r := ps;
            var pid, status := Reap(p);
            SlackTrans(old(ps), r, ps);
            assert FirstChildZombie(old(ps), p, me, pid);
            return Reaped(pid, status);
          }
        }
        p := p + 1;
      }
      if !havekids || ps[me].killed {
        return None;
      }
      assert ps[me := Asleep(ps[me], OnProc(me), InWait)] == old(ps)[me := Asleep(old(ps)[me], OnProc(me), InWait)];
      SleepKeeps(Now(), me, OnProc(me), InWait);
      SlackTrans(old(ps), ps, ps[me := Asleep(ps[me], OnProc(me), InWait)]);
      ps := ps[me := Asleep(ps[me], OnProc(me), InWait)];
      return Blocked;
    }

    /** waitpid, from its start or from waking up (when it goes on after the entry it slept on), to its next sleep or
        its return. */
    method Waitpid(me: int, pid: int) returns (out: Outcome)
      requires Valid() && |ps| == NPROC && 0 <= me < NPROC && ps[me].state == RUNNING
      requires ps[me].place == Away || (ps[me].place.InWaitpid? && ps[me].place.pid == pid)
      modifies this`ps, this`reaped
      ensures Valid() && SameSlack(old(ps), ps) && (!out.Reaped? ==> reaped == old(reaped))
      ensures out.Reaped? ==>
                && out.pid == pid && pid in exited && out.status == exited[pid] && pid !in old(reaped)
                && reaped == old(reaped) + {pid} && PidReaped(old(ps), ps, me, pid) && Nowhere(ps, pid)
      ensures out.Stale? || out.None? ==> ps == old(ps)[me := old(ps)[me].(place := Away)]
      ensures out.Stale? ==> out.pid == pid && PidStale(old(ps), me, pid, out.status)
      ensures out.None? <==> forall z :: !Meets(old(ps), me, pid, z)
      ensures out.Blocked? ==> PidBlocks(old(ps), ps, me, pid)
      ensures old(ps)[me].place == Away ==> (out.None? <==> Nowhere(old(ps), pid))
      ensures old(ps)[me].place.InWaitpid? && NonePid(old(ps), old(ps)[me].place.slot + 1, NPROC, pid) ==>
                (out.None? <==> old(ps)[me].killed || Nowhere(old(ps), pid))
    {
      hide Good, Slack, SameSlack;
      Remembers(me);
      var found := ps[me].place.InWaitpid?;
      var p := if found then ps[me].place.slot + 1 else 0;
      ghost var from := p;
      MoveAway(me);
      while true
        invariant 0 <= p <= NPROC == |ps| && ps == At(old(ps), me, Away) && Valid() && reaped == old(reaped)
        invariant SameSlack(old(ps), ps) && (found ==> old(ps)[me].place.InWaitpid? && p == from) && (!found ==> p == 0)
        invariant !found && old(ps)[me].place.InWaitpid? ==>
                    NonePid(old(ps), from, NPROC, pid) && !old(ps)[me].killed
        decreases found
      {
        while p < NPROC
          invariant 0 <= p <= NPROC && (found ==> from <= p)
          invariant NonePid(old(ps), if found then from else 0, p, pid)
        {
          assert ps[p].pid == old(ps)[p].pid && ps[p].state == old(ps)[p].state && ps[p].est == old(ps)[p].est;
          if ps[p].pid == pid {
            assert PidIn(old(ps), p, pid);
            assert !found && from > 0 ==> p < from;
            assert Meets(old(ps), me, pid, p);
            ghost var r := ps;
            if ps[p].state == ZOMBIE {
              var pid', status' := Reap(p);
              SlackTrans(old(ps), r, ps);
              return Reaped(pid', status');
            } else if ps[p].state == UNUSED {
              return Stale(pid, ps[p].est);
            } else {
              WaitOn(me, p, pid);
              SlackTrans(old(ps), r, ps);
              return Blocked;
            }
          }
          p := p + 1;
        }
        if !found || ps[me].killed {
          return None;
        }
        p, found := 0, false;
      }
    }

    lemma Remembers(me: int)
      requires Valid() && 0 <= me < NPROC
      ensures |ps| == NPROC && PlaceOk(ps[me].place, NPROC)
    {
    }

    /** waitpid counts itself and goes to sleep. */
    method WaitOn(me: int, p: int, pid: int)
      requires Valid() && |ps| == NPROC && 0 <= me < NPROC && ps[me].state == RUNNING && Pending(ps, p, pid)
      modifies this`ps
      ensures Valid() && SameSlack(old(ps), ps) && WaitsOn(old(ps), ps, me, p, pid)
    {
      hide Good, Slack;
      CountUpKeeps(Now(), p);
      ps := CountUp(ps, p);
      SleepKeeps(Now(), me, OnProc(p), InWaitpid(p, pid));
      ps := FallAsleep(ps, me, p, pid);
    }

    /** The caller is not (any more) at one of its sleeping places. */
    method MoveAway(me: int)
      requires Valid() && |ps| == NPROC && 0 <= me < NPROC && ps[me].state == RUNNING
      modifies this`ps
      ensures Valid() && SameSlack(old(ps), ps) && ps == At(old(ps), me, Away)
    {
      hide Good, Slack;
      ps := ps[me := ps[me].(place := Away)];
      Replaced(old(Now()), me, ps[me]);
    }

    /** wakeup1 */
    method Wakeup1(ch: Chan)
      modifies this`ps
      ensures ps == WakeAll(old(ps), ch) && AllRoused(old(ps), ps, ch)
    {
      var p := 0;
      while p < |ps|
        invariant 0 <= p <= |ps| == |old(ps)|
        invariant forall i :: 0 <= i < p ==> ps[i] == Woken(old(ps)[i], ch)
        invariant forall i :: p <= i < |ps| ==> ps[i] == old(ps)[i]
      {
        ps := ps[p := Woken(ps[p], ch)];
        p := p + 1;
      }
    }

    /** wakeup */
    method Wakeup(ch: Chan)
      requires Valid() && |ps| == NPROC
      modifies this`ps
      ensures Valid() && AllRoused(old(ps), ps, ch)
      ensures forall s :: 0 <= s < NPROC ==>
              Slack(ps, s) == if ch == OnProc(s) then ps[s].cur_index else old(Slack(ps, s))
    {
      hide Good, Woken;
      Wakeup1(ch);
      WakeAllWakes(old(ps), ch);
      MovesKeep(old(Now()), ps);
      forall s | 0 <= s < NPROC ensures Slack(ps, s) == if ch == OnProc(s) then ps[s].cur_index else old(Slack(ps, s)) {
        SleepersWoken(old(ps), ps, ch, s);
        WokenCount(old(ps)[s], ch);
      }
    }

    /** wakeuppid */
    method Wakeuppid(me: int)
      requires 0 <= me < |ps| && ps[me].state != SLEEPING && OnlyWaiters(ps, me)
      modifies this`ps
      ensures ps == PidPass(old(ps), me)
      ensures ps[me] == old(ps)[me].(cur_index := old(ps)[me].cur_index - Sleepers(old(ps), me))
      ensures AllRoused(old(ps), ps[me := old(ps)[me]], OnProc(me))
    {
      hide Sleepers;
      var p := 0;
      PrefixNone(ps, me);
      while p < |ps|
        invariant 0 <= p <= |ps| == |old(ps)|
        invariant forall i :: 0 <= i < |ps| && i != me ==>
                                ps[i] == if i < p then Woken(old(ps)[i], OnProc(me)) else old(ps)[i]
        invariant ps[me] == old(ps)[me].(cur_index := old(ps)[me].cur_index - Sleepers(old(ps)[..p], me))
      {
        PrefixNext(old(ps), p, me);
        if ps[p].state == SLEEPING && ps[p].chan == OnProc(me) {
          assert old(ps)[p] == ps[p] && SleepsOn(old(ps)[p], me);
          ps := ps[p := ps[p].(state := RUNNABLE)];
          ps := ps[me := ps[me].(cur_index := ps[me].cur_index - 1)];
        }
        p := p + 1;
      }
      assert old(ps)[..p] == old(ps);
      assert ps == PidPass(old(ps), me);
    }

    /** exit's wake loop, which ends because the counter is exact. */
    method WakeWaiters(me: int)
      requires 0 <= me < |ps| && ps[me].state != SLEEPING && OnlyWaiters(ps, me) && Slack(ps, me) == 0
      modifies this`ps
      ensures |ps| == |old(ps)| && ps[me] == old(ps)[me].(cur_index := 0)
      ensures forall i :: 0 <= i < |ps| && i != me ==> ps[i] == Woken(old(ps)[i], OnProc(me))
      ensures AllRoused(old(ps), ps[me := old(ps)[me]], OnProc(me))
    {
      hide Sleepers;
      NobodyLeft(ps, me);
      while ps[me].cur_index > 0
        invariant ps == old(ps) || (ps == PidPass(old(ps), me) && ps[me].cur_index == 0)
        decreases ps[me].cur_index
      {
        Wakeuppid(me);
      }
    }

    /** The children of `me` pass to init. */
    method Reparent(me: int)
      requires 0 <= me < |ps| && 0 <= init < |ps|
      modifies this`ps
      ensures |ps| == |old(ps)|
      ensures forall i :: 0 <= i < |ps| ==>
              ps[i] == Adopted(old(ps)[i], me, init, true, HasZombieChild(old(ps), me, |ps|))
    {
      var p := 0;
      while p < |ps|
        invariant 0 <= p <= |ps| == |old(ps)|
        invariant forall i :: 0 <= i < |ps| ==>
                  ps[i] == Adopted(old(ps)[i], me, init, i < p, HasZombieChild(old(ps), me, p))
      {
        ZombieNext(old(ps), me, p);
        hide HasZombieChild;
        assert ps[p].parent == old(ps)[p].parent && (ps[p].state == ZOMBIE <==> old(ps)[p].state == ZOMBIE);
        if ps[p].parent == me {
          ps := ps[p := ps[p].(parent := init)];
          if ps[p].state == ZOMBIE {
            Wakeup1(OnProc(init));
          }
        }
        p := p + 1;
      }
    }

    /** exit: the process becomes a ZOMBIE with its status, everyone who waits for it is awake, and its children have a
        new parent. It gets there exactly when its counter equals its sleepers (see ExitLoopEnds). */
    method Exit(me: int, st: int)
      requires Valid() && |ps| == NPROC && 0 <= me < NPROC && me != init && ps[me].state == RUNNING
      requires forall i :: 0 <= i < NPROC && ps[i].state == EMBRYO ==> i in maker && maker[i] != me
      requires Slack(ps, me) == 0
      modifies this`ps, this`exited
      ensures Valid() && Exits(old(ps), ps, me, init, st)
      ensures old(ps)[me].pid !in old(exited) && exited == old(exited)[old(ps)[me].pid := st]
    {
      hide Good, Slack, Sleepers, HasZombieChild;
      ExitFacts(me);
      Wakeup1(OnProc(ps[me].parent));
      SlackElsewhere(old(ps), ps, OnProc(ps[me].parent), me);
      ghost var ps1 := ps;
      ps := ps[me := ps[me].(est := st)];
      SlackSet(ps1, me, ps[me], me);
      WakeWaiters(me);
      ghost var ps2 := ps;
      ZombieSame(old(ps), ps2, me);
      Reparent(me);
      ps := ps[me := ps[me].(state := ZOMBIE)];
      assert Exits(old(ps), ps, me, init, st);
      ExitKeeps(old(Now()), ps, me, st);
      exited := exited[ps[me].pid := st];
    }

    lemma ExitFacts(me: int)
      requires Valid() && 0 <= me < NPROC && me != init && ps[me].state == RUNNING
      ensures |ps| == NPROC && 0 <= init < NPROC && 0 <= ps[me].parent < NPROC && ps[me].parent != me
              && OnlyWaiters(ps, me)
    {
      assert HasParent(ps, me);
      forall i | 0 <= i < |ps| && ps[i].state == SLEEPING && ps[i].chan == OnProc(me) ensures ps[i].place.InWaitpid? {
        assert WellAsleep(ps, i);
      }
    }

    /** setprio: the caller's own priority, clamped to 0..63, and the processor is given up. */
    method Setprio(me: int, prio: int)
      requires Valid() && |ps| == NPROC && 0 <= me < NPROC && ps[me].state == RUNNING
      modifies this`ps
      ensures Valid() && SameSlack(old(ps), ps)
      ensures var p := if prio < 0 then 0 else if prio > 63 then 63 else prio;
              ps == old(ps)[me := old(ps)[me].(state := RUNNABLE, prio := p)]
    {
      hide Good, Slack;
      MyPid(me);
      var p := 0;
      while ps[p].pid != ps[me].pid
        invariant 0 <= p <= me
        decreases me - p
      {
        p := p + 1;
      }
      ps := ps[p := ps[p].(prio := if 0 <= prio <= 63 then prio else if prio < 0 then 0 else 63)];
      ps := ps[p := ps[p].(state := RUNNABLE)];
      Replaced(old(Now()), me, ps[me]);
    }

    lemma MyPid(me: int)
      requires Valid() && 0 <= me < NPROC && ps[me].state == RUNNING
      ensures |ps| == NPROC && forall p :: 0 <= p < NPROC && ps[p].pid == ps[me].pid ==> p == me
    {
    }
  }

  // ---- a run in which an exit never ends --------------------------------------------------------------------

  /** Entry `n - 1` runs, with no place to wait at, and is the last that was ever used. */
  ghost predicate Newest(t: Table, n: int)
    reads t
  {
    && t.Valid() && 1 <= n < NPROC == |t.ps| && t.nextpid == n + 1
    && t.ps[n - 1].state == RUNNING && t.ps[n - 1].place == Away && t.ps[n - 1].pid == n
    && (forall i :: 0 <= i < n ==> t.ps[i].state != UNUSED && t.ps[i].pid == i + 1)
    && (forall i :: n <= i < NPROC ==> t.ps[i] == Free())
    && (forall s :: 0 <= s < NPROC ==> Slack(t.ps, s) == 0)
  }

  /** init, running. */
  method Boot() returns (t: Table)
    ensures fresh(t) && Newest(t, 1)
  {
    hide Good, Slack;
    t := new Table();
    t.Dispatch(0);
  }

  /** The newest process forks a child, which gets to run. */
  method ForkAndRun(t: Table, n: int)
    requires Newest(t, n) && n + 1 < NPROC
    modifies t
    ensures Newest(t, n + 1) && t.ps[n - 1] == old(t.ps)[n - 1]
  {
    hide Good, Slack;
    var np := t.Allocproc(n - 1);
    assert old(t.ps)[n].state == UNUSED;
    var pid := t.ForkDone(n - 1, np);
    t.Dispatch(np);
  }

  /** A process sleeps in waitpid on its child and is killed: the child's exit will pass over its wake loop for ever. */
  method EndlessExit() returns (t: Table)
    ensures fresh(t) && t.Valid() && |t.ps| == NPROC && t.ps[2].state == RUNNING && Slack(t.ps, 2) == 1
    ensures forall k: nat :: Passes(t.ps, 2, k)[2].cur_index > 0
  {
    hide Good, Slack, Passes;
    t := Boot();
    ForkAndRun(t, 1);
    ForkAndRun(t, 2);
    ghost var was := t.ps;
    var out := t.Waitpid(1, 3);
    assert PidIn(was, 2, 3) && PidBlocks(was, t.ps, 1, 3);
    assert WaitsFor(t.ps, 1, 2, 2);
    var r := t.Kill(2);
    ExitLoopEnds(t.ps, 2);
  }

  /** A process guesses the pid of a fork under way and sleeps in waitpid on it; the fork then fails, and the process
      sleeps on an entry that is not in use. */
  method StrandedWaiter() returns (t: Table)
    ensures fresh(t) && !t.Valid() && |t.ps| == NPROC
    ensures SleepsOn(t.ps[1], 2) && t.ps[2].state == UNUSED && t.ps[2].cur_index == 1
  {
    hide Good, Slack;
    t := Boot();
    ForkAndRun(t, 1);
    assert t.ps[2].state == UNUSED;
    var np := t.Allocproc(0);
    ghost var was := t.ps;
    assert np == 2 && PidIn(was, 2, 3);
    var out := t.Waitpid(1, 3);
    assert PidBlocks(was, t.ps, 1, 3);
    SleepersSome(t.ps, 2, 1);
    t.ForkFailed(np);
  }

  // ---- what the calls promise each other --------------------------------------------------------------------

  /** Killing a process that sleeps in wait makes its wait fail. */
  method KilledInWait(t: Table, me: int) returns (out: Outcome)
    requires t.Valid() && |t.ps| == NPROC && 0 <= me < NPROC && t.ps[me].state == SLEEPING && t.ps[me].place == InWait
    modifies t
    ensures t.Valid() && out == None && |t.ps| == NPROC && t.ps[me].killed && t.ps[me].state == RUNNING
  {
    hide Good, Slack;
    SleeperOf(t, me);
    assert PidIn(t.ps, me, t.ps[me].pid);
    var r := t.Kill(t.ps[me].pid);
    t.Dispatch(me);
    out := t.Wait(me);
  }

  lemma SleeperOf(t: Table, me: int)
    requires t.Valid() && |t.ps| == NPROC && 0 <= me < NPROC && t.ps[me].state == SLEEPING
    ensures WellAsleep(t.ps, me) && t.ps[me].pid >= 1
    ensures forall i :: FirstPid(t.ps, i, t.ps[me].pid) ==> i == me
  {
  }

  /** Killing a process that sleeps in waitpid makes its waitpid fail, unless a later entry has the pid by then. */
  method KilledInWaitpid(t: Table, me: int) returns (out: Outcome)
    requires t.Valid() && |t.ps| == NPROC && 0 <= me < NPROC && t.ps[me].state == SLEEPING && t.ps[me].place.InWaitpid?
    modifies t
    ensures t.Valid() && out == None && |t.ps| == NPROC && t.ps[me].killed && t.ps[me].state == RUNNING
  {
    hide Good, Slack;
    SleeperOf(t, me);
    SleptOn(t, me);
    var pid := t.ps[me].place.pid;
    assert PidIn(t.ps, me, t.ps[me].pid);
    var r := t.Kill(t.ps[me].pid);
    t.Dispatch(me);
    out := t.Waitpid(me, pid);
  }

  lemma SleptOn(t: Table, me: int)
    requires t.Valid() && |t.ps| == NPROC && 0 <= me < NPROC && t.ps[me].state == SLEEPING && t.ps[me].place.InWaitpid?
    ensures NonePid(t.ps, t.ps[me].place.slot + 1, NPROC, t.ps[me].place.pid)
  {
    assert WellAsleep(t.ps, me);
  }

  /** Once a child has been waited for, its pid is nobody's: waiting for it again fails, and so does killing it. */
  method WaitTwice(t: Table, me: int) returns (out: Outcome, again: Outcome, r: int)
    requires t.Valid() && |t.ps| == NPROC && 0 <= me < NPROC && t.ps[me].state == RUNNING && t.ps[me].place == Away
    modifies t
    ensures t.Valid() && (out.Reaped? ==> again == None && r == -1)
  {
    hide Good, Slack;
    out := t.Wait(me);
    again, r := Blocked, 0;
    if out.Reaped? {
      again := t.Waitpid(me, out.pid);
      r := t.Kill(out.pid);
    }
  }
}
