/** sleep and wakeup (proc.c) with their locks, for any number of processes, channels and locks.

    Each step is one atomic action: taking or dropping a spinlock, testing or changing a condition, going to sleep,
    waking everybody on a channel. Callers follow the kernel's rule: a condition is tested and changed only with its
    lock held, and whoever makes it true wakes the channel before dropping the lock. */
module SleepWakeup {
  type Lock = int

  /** ptable.lock */
  const PTABLE: Lock := 0

  /** A channel, and the lock that protects its condition. */
  datatype Chan = Chan(id: int, lk: Lock)

  datatype Pc =
    | Idle
    | Holding(l: Lock)      // between acquire and release
    | Checked(ch: Chan)     // in sleep: the condition was false, lk is held
    | Both(ch: Chan)        // in sleep: lk and ptable.lock are held
    | Going(ch: Chan)       // in sleep: only ptable.lock is held
    | Sleeping(ch: Chan)
    | Woken(ch: Chan)       // about to take lk again
    | Changed(ch: Chan)     // has made the condition true, lk is held
    | Waking(ch: Chan)      // in wakeup: lk and ptable.lock are held

  datatype World = World(pc: map<int, Pc>, held: map<Lock, int>, cond: map<Chan, bool>)

  predicate True(w: World, ch: Chan) {
    ch in w.cond && w.cond[ch]
  }

  function Owns(pc: Pc): (s: set<Lock>) {
    match pc
    case Idle => {}
    case Holding(l) => {l}
    case Checked(ch) => {ch.lk}
    case Both(ch) => {ch.lk, PTABLE}
    case Going(_) => {PTABLE}
    case Sleeping(_) => {}
    case Woken(_) => {}
    case Changed(ch) => {ch.lk}
    case Waking(ch) => {ch.lk, PTABLE}
  }

  datatype Step =
    | Acquire(l: Lock)
    | Release
    | Test(ch: Chan)  // the condition was false: go to sleep
    | Pass(ch: Chan)  // the condition was true: go on
    | LockTable
    | DropLock
    | Sched
    | Clear(ch: Chan)
    | Raise(ch: Chan)
    | WakeLock
    | Wake
    | Kill

  function WakeAll(pc: map<int, Pc>, ch: Chan): (r: map<int, Pc>)
    ensures r.Keys == pc.Keys
    ensures forall q :: q in pc ==> r[q] == if pc[q] == Sleeping(ch) then Woken(ch) else pc[q]
  {
    map q | q in pc :: if pc[q] == Sleeping(ch) then Woken(ch) else pc[q]
  }

  /** Process `p` takes a step. A spinlock is taken only when nobody holds it. */
  ghost predicate Next(w: World, w': World, p: int, step: Step) {
    p in w.pc &&
    match step
    case Acquire(l) =>
      && (w.pc[p] == Idle || (w.pc[p].Woken? && w.pc[p].ch.lk == l)) && l !in w.held
      && w' == World(w.pc[p := Holding(l)], w.held[l := p], w.cond)
    case Release =>
      w.pc[p].Holding? && w' == World(w.pc[p := Idle], w.held - {w.pc[p].l}, w.cond)
    case Test(ch) =>
      && w.pc[p] == Holding(ch.lk) && !True(w, ch)
      && w' == w.(pc := w.pc[p := if ch.lk == PTABLE then Going(ch) else Checked(ch)])
    case Pass(ch) =>
      w.pc[p] == Holding(ch.lk) && True(w, ch) && w' == w
    case LockTable =>
      && w.pc[p].Checked? && PTABLE !in w.held
      && w' == World(w.pc[p := Both(w.pc[p].ch)], w.held[PTABLE := p], w.cond)
    case DropLock =>
      w.pc[p].Both? && w' == World(w.pc[p := Going(w.pc[p].ch)], w.held - {w.pc[p].ch.lk}, w.cond)
    case Sched =>
      w.pc[p].Going? && w' == World(w.pc[p := Sleeping(w.pc[p].ch)], w.held - {PTABLE}, w.cond)
    case Clear(ch) =>
      w.pc[p] == Holding(ch.lk) && w' == w.(cond := w.cond[ch := false])
    case Raise(ch) =>
      w.pc[p] == Holding(ch.lk) && w' == w.(pc := w.pc[p := Changed(ch)], cond := w.cond[ch := true])
    case WakeLock =>
      && w.pc[p].Changed? && w.pc[p].ch.lk != PTABLE && PTABLE !in w.held
      && w' == World(w.pc[p := Waking(w.pc[p].ch)], w.held[PTABLE := p], w.cond)
    case Wake =>
      if w.pc[p].Waking? then
        var ch := w.pc[p].ch;
        w' == World(WakeAll(w.pc, ch)[p := Holding(ch.lk)], w.held - {PTABLE}, w.cond)
      else
        && w.pc[p].Changed? && w.pc[p].ch.lk == PTABLE
        && w' == World(WakeAll(w.pc, w.pc[p].ch)[p := Holding(PTABLE)], w.held, w.cond)
    case Kill =>
      w.pc[p].Sleeping? && PTABLE !in w.held && w' == w.(pc := w.pc[p := Woken(w.pc[p].ch)])
  }

  ghost predicate Start(w: World) {
    w.held == map[] && forall p :: p in w.pc ==> w.pc[p] == Idle
  }

  /** A lock has the one holder that says so. */
  ghost predicate Locked(w: World) {
    && (forall l :: l in w.held ==> w.held[l] in w.pc && l in Owns(w.pc[w.held[l]]))
    && (forall p, l :: p in w.pc && l in Owns(w.pc[p]) ==> l in w.held && w.held[l] == p)
    && (forall p :: p in w.pc && (w.pc[p].Both? || w.pc[p].Checked? || w.pc[p].Waking?) ==> w.pc[p].ch.lk != PTABLE)
  }

  /** Whoever holds the lock of `ch` has made the condition true and not yet woken the sleepers. */
  ghost predicate Owed(w: World, ch: Chan) {
    ch.lk in w.held && w.held[ch.lk] in w.pc && w.pc[w.held[ch.lk]] in {Changed(ch), Waking(ch)}
  }

  /** Nobody is between the test and the sleep, or asleep, on a condition that is true, unless a wakeup is on its way.
      */
  ghost predicate Safe(w: World) {
    && (forall p :: p in w.pc && (w.pc[p].Checked? || w.pc[p].Both?) ==> !True(w, w.pc[p].ch))
    && (forall p :: p in w.pc && (w.pc[p].Going? || w.pc[p].Sleeping?) && True(w, w.pc[p].ch) ==> Owed(w, w.pc[p].ch))
  }

  lemma StartSafe(w: World)
    requires Start(w)
    ensures Locked(w) && Safe(w)
  {
  }

  lemma HolderNext(w: World, w': World, p: int, step: Step, l: Lock)
    requires Locked(w) && Next(w, w', p, step) && l in w'.held
    ensures w'.held[l] in w'.pc && l in Owns(w'.pc[w'.held[l]])
  {
    assert p in w.pc;
    assert l in w.held ==> w.held[l] in w.pc && l in Owns(w.pc[w.held[l]]);
  }

  lemma OwnerNext(w: World, w': World, p: int, step: Step, q: int, l: Lock)
    requires Locked(w) && Next(w, w', p, step) && q in w'.pc && l in Owns(w'.pc[q])
    ensures l in w'.held && w'.held[l] == q
  {
    assert q in w.pc;
    assert l in Owns(w.pc[q]) ==> l in w.held && w.held[l] == q;
  }

  lemma LockedNext(w: World, w': World, p: int, step: Step)
    requires Locked(w) && Next(w, w', p, step)
    ensures Locked(w')
  {
    forall l | l in w'.held ensures w'.held[l] in w'.pc && l in Owns(w'.pc[w'.held[l]]) {
      HolderNext(w, w', p, step, l);
    }
    forall q, l | q in w'.pc && l in Owns(w'.pc[q]) ensures l in w'.held && w'.held[l] == q {
      OwnerNext(w, w', p, step, q, l);
    }
    forall q | q in w'.pc && (w'.pc[q].Both? || w'.pc[q].Checked? || w'.pc[q].Waking?)
        ensures w'.pc[q].ch.lk != PTABLE {
      assert q in w.pc;
    }
  }

  lemma Exclusive(w: World, p: int, q: int, l: Lock)
    requires Locked(w) && p in w.pc && q in w.pc && l in Owns(w.pc[p]) && l in Owns(w.pc[q])
    ensures p == q && l in w.held && w.held[l] == p
  {
    hide Owns;
    assert w.held[l] == p;
  }

  /** A process between the test and the sleep holds the lock, so the condition stays false. */
  lemma TestedAt(w: World, w': World, p: int, step: Step, q: int)
    requires Locked(w) && Safe(w) && Next(w, w', p, step) && q in w'.pc && (w'.pc[q].Checked? || w'.pc[q].Both?)
    ensures !True(w', w'.pc[q].ch)
  {
    hide Locked, Owed;
    assert q in w.pc && p in w.pc;
    if step.Raise? && step.ch == w'.pc[q].ch {
      Exclusive(w, p, q, step.ch.lk);
    }
  }

  /** A wakeup that is owed stays owed until it is given. */
  lemma OwedStays(w: World, w': World, p: int, step: Step, ch: Chan)
    requires Locked(w) && Next(w, w', p, step) && Owed(w, ch)
    ensures Owed(w', ch) || (step == Wake && w.held[ch.lk] == p)
  {
    var h := w.held[ch.lk];
    assert ch.lk in Owns(w.pc[h]);
    hide Locked;
    if step.Release? {
      Exclusive(w, p, p, w.pc[p].l);
    } else if step.DropLock? {
      Exclusive(w, p, p, w.pc[p].ch.lk);
    } else if step.Sched? {
      Exclusive(w, p, p, PTABLE);
    } else if step.Wake? && w.pc[p].Waking? {
      Exclusive(w, p, p, PTABLE);
    }
  }

  /** A process that has dropped the lock is asleep, or holds ptable.lock, before any wakeup can pass. */
  lemma AsleepAt(w: World, w': World, p: int, step: Step, q: int)
    requires Locked(w) && Safe(w) && Next(w, w', p, step) && q in w'.pc && (w'.pc[q].Going? || w'.pc[q].Sleeping?)
    ensures True(w', w'.pc[q].ch) ==> Owed(w', w'.pc[q].ch)
  {
    var ch := w'.pc[q].ch;
    assert q in w.pc && p in w.pc;
    if step == Raise(ch) {
      Exclusive(w, p, p, ch.lk);
    } else if True(w', ch) && (w.pc[q].Going? || w.pc[q].Sleeping?) {
      assert Owed(w, ch);
      if step == Wake && w.held[ch.lk] == p && w.pc[q].Going? {
        Exclusive(w, p, q, PTABLE);
      }
      OwedStays(w, w', p, step, ch);
    }
  }

  lemma SafeNext(w: World, w': World, p: int, step: Step)
    requires Locked(w) && Safe(w) && Next(w, w', p, step)
    ensures Safe(w')
  {
    hide Next, Owed, Locked;
    forall q | q in w'.pc
      ensures w'.pc[q].Checked? || w'.pc[q].Both? ==> !True(w', w'.pc[q].ch)
      ensures (w'.pc[q].Going? || w'.pc[q].Sleeping?) && True(w', w'.pc[q].ch) ==> Owed(w', w'.pc[q].ch)
    {
      if w'.pc[q].Checked? || w'.pc[q].Both? {
        TestedAt(w, w', p, step, q);
      } else if w'.pc[q].Going? || w'.pc[q].Sleeping? {
        AsleepAt(w, w', p, step, q);
      }
    }
  }

  // ---- whole runs -------------------------------------------------------------------------------------------

  datatype Act = Act(p: int, step: Step)

  /** `ws` are the states that the actions `acts` lead through. */
  ghost predicate Run(ws: seq<World>, acts: seq<Act>) {
    && |ws| == |acts| + 1
    && if acts == [] then Start(ws[0])
       else
         var n := |acts|;
         Run(ws[..n], acts[..n - 1]) && Next(ws[n - 1], ws[n], acts[n - 1].p, acts[n - 1].step)
  }

  lemma {:induction false} RunSafe(ws: seq<World>, acts: seq<Act>, k: nat)
    requires Run(ws, acts) && k < |ws|
    ensures Locked(ws[k]) && Safe(ws[k])
    decreases |ws|
  {
    hide Next, Start, Locked, Safe;
    var n := |acts|;
    if n == 0 {
      StartSafe(ws[0]);
    } else if k < n {
      RunSafe(ws[..n], acts[..n - 1], k);
    } else {
      RunSafe(ws[..n], acts[..n - 1], n - 1);
      LockedNext(ws[n - 1], ws[n], acts[n - 1].p, acts[n - 1].step);
      SafeNext(ws[n - 1], ws[n], acts[n - 1].p, acts[n - 1].step);
    }
  }

  /** No lost wakeup: in every run, once the lock of a channel is free, nobody sleeps there on a true condition. */
  lemma NoLostWakeup(ws: seq<World>, acts: seq<Act>, k: nat, p: int, ch: Chan)
    requires Run(ws, acts) && k < |ws| && p in ws[k].pc && ws[k].pc[p] == Sleeping(ch) && ch.lk !in ws[k].held
    ensures !True(ws[k], ch)
  {
    RunSafe(ws, acts, k);
  }

  /** Mutual exclusion. */
  lemma OneHolder(ws: seq<World>, acts: seq<Act>, k: nat, p: int, q: int, l: Lock)
    requires Run(ws, acts) && k < |ws| && p in ws[k].pc && q in ws[k].pc && l in Owns(ws[k].pc[p])
             && l in Owns(ws[k].pc[q])
    ensures p == q
  {
    hide Owns, Run;
    RunSafe(ws, acts, k);
    assert ws[k].held[l] == p;
  }

  // ---- begin_trans and commit_trans -------------------------------------------------------------------------

  /** The log as a channel, with log.lock; its condition is that no transaction is open. */
  const LOG: Chan := Chan(1, 1)

  /** An action, the processes with an open transaction after it, and those that have just found busy to be 0. */
  datatype LogAct = LogAct(act: Act, open: set<int>, passed: set<int>)

  /** begin_trans sets busy right after its own test found it 0, whatever others do between the two; only the process
      with the open transaction resets it, in commit_trans. */
  ghost predicate LogNext(open: set<int>, passed: set<int>, act: Act, open': set<int>, passed': set<int>) {
    && passed' == (if act.step == Pass(LOG) then passed + {act.p} else passed - {act.p})
    && match act.step
       case Clear(ch) =>
         if ch == LOG then act.p in passed && open' == open + {act.p} else open' == open
       case Raise(ch) =>
         if ch == LOG then act.p in open && open' == open - {act.p} else open' == open
       case _ => open' == open
  }

  ghost predicate LogRun(ws: seq<World>, acts: seq<LogAct>) {
    && |ws| == |acts| + 1
    && if acts == [] then Start(ws[0]) && True(ws[0], LOG)
       else
         var n := |acts|;
         var act := acts[n - 1];
         && LogRun(ws[..n], acts[..n - 1])
         && Next(ws[n - 1], ws[n], act.act.p, act.act.step)
         && LogNext(OpenIn(acts[..n - 1]), PassedIn(acts[..n - 1]), act.act, act.open, act.passed)
  }

  ghost function OpenIn(acts: seq<LogAct>): (s: set<int>) {
    if acts == [] then {} else acts[|acts| - 1].open
  }

  ghost function PassedIn(acts: seq<LogAct>): (s: set<int>) {
    if acts == [] then {} else acts[|acts| - 1].passed
  }

  ghost function Plain(acts: seq<LogAct>): (r: seq<Act>)
    ensures |r| == |acts| && forall i :: 0 <= i < |acts| ==> r[i] == acts[i].act
  {
    seq(|acts|, i requires 0 <= i < |acts| => acts[i].act)
  }

  lemma {:induction false} LogRunIsRun(ws: seq<World>, acts: seq<LogAct>)
    requires LogRun(ws, acts)
    ensures Run(ws, Plain(acts))
    decreases |ws|
  {
    hide Next, Start, LogNext;
    var n := |acts|;
    if n > 0 {
      LogRunIsRun(ws[..n], acts[..n - 1]);
      assert Plain(acts)[..n - 1] == Plain(acts[..n - 1]);
    }
  }

  lemma CondNext(w: World, w': World, p: int, step: Step, ch: Chan)
    requires Next(w, w', p, step)
    ensures step == Clear(ch) ==> !True(w', ch)
    ensures step == Raise(ch) ==> True(w', ch)
    ensures step != Clear(ch) && step != Raise(ch) ==> (True(w', ch) <==> True(w, ch))
  {
  }

  /** Whoever has found busy to be 0 holds log.lock, and it still is 0. */
  ghost predicate Passing(w: World, passed: set<int>) {
    forall p :: p in passed ==> p in w.pc && w.pc[p] == Holding(LOG.lk) && True(w, LOG)
  }

  lemma PassingNext(w: World, w': World, p: int, step: Step, passed: set<int>)
    requires Locked(w) && Next(w, w', p, step) && Passing(w, passed)
    ensures Passing(w', if step == Pass(LOG) then passed + {p} else passed - {p})
  {
    hide Locked;
    forall q | q in passed && q != p ensures q in w'.pc && w'.pc[q] == Holding(LOG.lk) && True(w', LOG) {
      CondNext(w, w', p, step, LOG);
      if step == Clear(LOG) || step == Raise(LOG) {
        Exclusive(w, p, q, LOG.lk);
      }
    }
  }

  lemma {:induction false} PassedHolds(ws: seq<World>, acts: seq<LogAct>)
    requires LogRun(ws, acts)
    ensures Passing(ws[|acts|], PassedIn(acts))
    decreases |ws|
  {
    hide Next, Start, Locked, Passing;
    var n := |acts|;
    if n == 0 {
      NobodyPassing(ws[0]);
    } else {
      PassedHolds(ws[..n], acts[..n - 1]);
      LogRunIsRun(ws[..n], acts[..n - 1]);
      RunSafe(ws[..n], Plain(acts[..n - 1]), n - 1);
      PassingNext(ws[n - 1], ws[n], acts[n - 1].act.p, acts[n - 1].act.step, PassedIn(acts[..n - 1]));
    }
  }

  lemma NobodyPassing(w: World)
    ensures Passing(w, {})
  {
  }

  /** busy is set exactly while a transaction is open, because nobody can set it between another's test and set. */
  lemma {:induction false} BusyMeansOpen(ws: seq<World>, acts: seq<LogAct>)
    requires LogRun(ws, acts)
    ensures True(ws[|acts|], LOG) <==> OpenIn(acts) == {}
    ensures exists p :: OpenIn(acts) <= {p}
    decreases |ws|
  {
    hide Next, Start, True;
    var n := |acts|;
    if n == 0 {
      assert OpenIn(acts) <= {0};
    } else {
      BusyMeansOpen(ws[..n], acts[..n - 1]);
      PassedHolds(ws[..n], acts[..n - 1]);
      var act := acts[n - 1].act;
      CondNext(ws[n - 1], ws[n], act.p, act.step, LOG);
      var q :| OpenIn(acts[..n - 1]) <= {q};
      assert OpenIn(acts) <= {q} || OpenIn(acts) <= {act.p};
    }
  }

  /** In every run at most one transaction is open; and once log.lock is free nobody sleeps in begin_trans while busy is
      0. */
  lemma OneTransaction(ws: seq<World>, acts: seq<LogAct>, p: int, q: int)
    requires LogRun(ws, acts)
    ensures p in OpenIn(acts) && q in OpenIn(acts) ==> p == q
    ensures p in ws[|acts|].pc && ws[|acts|].pc[p] == Sleeping(LOG) && LOG.lk !in ws[|acts|].held ==> OpenIn(acts) != {}
  {
    hide Next, LogRun;
    BusyMeansOpen(ws, acts);
    LogRunIsRun(ws, acts);
    RunSafe(ws, Plain(acts), |acts|);
  }
}
