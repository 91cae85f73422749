/** The priority scheduler of proc.c, and the round-robin loop it replaced. */
module Scheduler {
  const NPROC: nat := 64

  datatype Slot = Slot(runnable: bool, prio: int)

  /** The process table as the scheduler sees it while it holds ptable.lock. */
  type Table = t: seq<Slot> | |t| == NPROC witness seq(NPROC, _ => Slot(false, 0))

  /** The first RUNNABLE entry from `p` on, or the end of the table. */
  function First(t: Table, p: nat): (i: nat)
    requires p <= NPROC
    ensures p <= i <= NPROC && (i < NPROC ==> t[i].runnable)
    ensures forall j :: p <= j < i ==> !t[j].runnable
    decreases NPROC - p
  {
    if p == NPROC || t[p].runnable then p else First(t, p + 1)
  }

  /** No RUNNABLE process has a higher priority. */
  ghost predicate Highest(t: Table, i: nat) {
    i < NPROC && t[i].runnable && forall j :: 0 <= j < NPROC && t[j].runnable ==> t[j].prio <= t[i].prio
  }

  /** Where the loop goes on after its test of entry `p`: `p` itself if no priority is higher, else the first entry with
      the highest one. */
  ghost predicate Chosen(t: Table, p: nat, hp: nat) {
    && Highest(t, hp)
    && (p < NPROC && Highest(t, p) ==> hp == p)
    && (p < NPROC && !Highest(t, p) ==> forall j :: 0 <= j < hp && t[j].runnable ==> t[j].prio < t[hp].prio)
  }

  /** What the inner loop makes of candidate `hp` from entry `pp` on. */
  function Inner(t: Table, hp: nat, pp: nat): (r: nat)
    requires hp < NPROC && pp <= NPROC
    ensures r < NPROC
    decreases NPROC - pp
  {
    if pp == NPROC then hp
    else Inner(t, if t[pp].runnable && t[hp].prio < t[pp].prio then pp else hp, pp + 1)
  }

  method Choose(t: Table, p: nat) returns (hp: nat)
    requires p < NPROC && t[p].runnable
    ensures hp == Inner(t, p, 0) && Chosen(t, p, hp)
  {
    hide Chosen;
    InnerChosen(t, p, Inner(t, p, 0));
    hp := p;
    var pp := 0;
    while pp < NPROC
      invariant 0 <= pp <= NPROC && hp < NPROC && Inner(t, hp, pp) == Inner(t, p, 0)
    {
      if t[pp].runnable {
        if t[hp].prio < t[pp].prio {
          hp := pp;
        }
      }
      pp := pp + 1;
    }
  }

  /** The inner loop leaves a candidate only for the first entry of the highest priority still to come. */
  lemma {:induction false} InnerBest(t: Table, hp: nat, pp: nat)
    requires hp < NPROC && pp <= NPROC && t[hp].runnable
    ensures var r := Inner(t, hp, pp);
            && t[r].runnable && t[r].prio >= t[hp].prio
            && (forall j :: pp <= j < NPROC && t[j].runnable ==> t[j].prio <= t[r].prio)
            && (r != hp ==> r >= pp && t[r].prio > t[hp].prio
                            && forall j :: pp <= j < r && t[j].runnable ==> t[j].prio < t[r].prio)
    decreases NPROC - pp
  {
    if pp < NPROC {
      InnerBest(t, if t[pp].runnable && t[hp].prio < t[pp].prio then pp else hp, pp + 1);
    }
  }

  /** The inner loop started at `p` chooses just that entry. */
  lemma InnerChosen(t: Table, p: nat, h: nat)
    requires p < NPROC && t[p].runnable
    ensures h == Inner(t, p, 0) <==> Chosen(t, p, h)
  {
    InnerBest(t, p, 0);
    assert Chosen(t, p, Inner(t, p, 0));
    if Chosen(t, p, h) {
      ChosenUnique(t, p, h, Inner(t, p, 0));
    }
  }

  /** The entry chosen depends on nothing but the table and the position. */
  lemma ChosenUnique(t: Table, p: nat, h: nat, k: nat)
    requires p < NPROC && Chosen(t, p, h) && Chosen(t, p, k)
    ensures h == k
  {
  }

  ghost predicate EqualPriorities(t: Table) {
    forall i, j :: 0 <= i < NPROC && 0 <= j < NPROC && t[i].runnable && t[j].runnable ==> t[i].prio == t[j].prio
  }

  // ---- runs on one processor --------------------------------------------------------------------------------

  /** What the scheduler does with one table, from position `p`: it dispatches an entry, or reaches the end. */
  function Outcome(t: Table, p: nat): (o: nat)
    requires p <= NPROC
    ensures o <= NPROC
  {
    if First(t, p) < NPROC then Inner(t, First(t, p), 0) else NPROC
  }

  /** Where it goes on: after the entry it ran, or from the start of the table again. */
  function After(o: nat): (p: nat) {
    if o < NPROC then o + 1 else 0
  }

  /** The scheduler from table position `p` to its next dispatch or to the end of the table. */
  method Scan(t: Table, p: nat) returns (o: nat)
    requires p <= NPROC
    ensures o == Outcome(t, p)
    ensures o < NPROC ==> Highest(t, o)
    ensures o >= NPROC <==> forall j :: p <= j < NPROC ==> !t[j].runnable
  {
    var q := p;
    while q < NPROC
      invariant p <= q <= NPROC && First(t, q) == First(t, p)
    {
      if t[q].runnable {
        o := Choose(t, q);
        assert t[First(t, p)].runnable;
        return;
      }
      q := q + 1;
    }
    o := NPROC;
  }

  /** The position from which table `k` is scanned. */
  function Position(os: seq<nat>, k: nat): (p: nat)
    requires k <= |os|
  {
    if k == 0 then 0 else After(os[k - 1])
  }

  /** `os` are the outcomes of the scheduler on the tables `ts`. It sees a table from when it gets ptable.lock, from a
      process that stopped or by acquiring it, to its next dispatch or to the end of its pass; between two tables
      anything may have happened. */
  ghost predicate Runs(ts: seq<Table>, os: seq<nat>) {
    && |os| == |ts|
    && forall k :: 0 <= k < |ts| ==> Position(os, k) <= NPROC && os[k] == Outcome(ts[k], Position(os, k))
  }

  /** The same for the round-robin loop. */
  ghost predicate RoundRobin(ts: seq<Table>, os: seq<nat>) {
    && |os| == |ts|
    && forall k :: 0 <= k < |ts| ==> Position(os, k) <= NPROC && os[k] == First(ts[k], Position(os, k))
  }

  /** scheduler, for as long as there are tables to see. */
  method Schedule(ts: seq<Table>) returns (os: seq<nat>)
    ensures Runs(ts, os)
    ensures forall k :: 0 <= k < |os| && os[k] < NPROC ==> Highest(ts[k], os[k])
  {
    os := [];
    var p := 0;
    while |os| < |ts|
      invariant |os| <= |ts| && p == Position(os, |os|) <= NPROC && Runs(ts[..|os|], os)
    {
      var o := Scan(ts[|os|], p);
      RunsMore(ts, os, o);
      os := os + [o];
      p := After(o);
    }
    assert ts[..|os|] == ts;
    forall k | 0 <= k < |os| && os[k] < NPROC ensures Highest(ts[k], os[k]) {
      DispatchesHighest(ts, os, k);
    }
  }

  lemma RunsMore(ts: seq<Table>, os: seq<nat>, o: nat)
    requires |os| < |ts| && Runs(ts[..|os|], os) && Position(os, |os|) <= NPROC
             && o == Outcome(ts[|os|], Position(os, |os|))
    ensures Runs(ts[..|os + [o]|], os + [o])
  {
    hide Outcome, After;
    var os', ts' := os + [o], ts[..|os| + 1];
    forall k | 0 <= k < |ts'| ensures Position(os', k) <= NPROC && os'[k] == Outcome(ts'[k], Position(os', k)) {
      assert Position(os', k) == Position(os, k);
      if k < |os| {
        assert ts'[k] == ts[..|os|][k];
      }
    }
  }

  /** In every run each dispatched process is RUNNABLE in the table scanned, and none there has a higher priority; and a
      pass ends only when nothing after its position is RUNNABLE. */
  lemma DispatchesHighest(ts: seq<Table>, os: seq<nat>, k: nat)
    requires Runs(ts, os) && k < |os|
    ensures os[k] < NPROC ==> Highest(ts[k], os[k])
    ensures os[k] >= NPROC ==> os[k] == NPROC && forall j :: Position(os, k) <= j < NPROC ==> !ts[k][j].runnable
  {
    var p := Position(os, k);
    if First(ts[k], p) < NPROC {
      InnerChosen(ts[k], First(ts[k], p), os[k]);
    }
  }

  // ---- equal priorities -------------------------------------------------------------------------------------

  ghost predicate AllEqual(ts: seq<Table>) {
    forall k :: 0 <= k < |ts| ==> EqualPriorities(ts[k])
  }

  lemma EqualOutcome(t: Table, p: nat)
    requires p <= NPROC && EqualPriorities(t)
    ensures Outcome(t, p) == First(t, p)
  {
    var i := First(t, p);
    if i < NPROC {
      assert Chosen(t, i, i);
      InnerChosen(t, i, i);
    }
  }

  /** While priorities are equal the two schedulers dispatch the same processes. */
  lemma EqualIsRoundRobin(ts: seq<Table>, os: seq<nat>)
    requires AllEqual(ts)
    ensures Runs(ts, os) <==> RoundRobin(ts, os)
  {
    hide First, Outcome, EqualPriorities;
    forall k | 0 <= k < |ts| && |os| == |ts| && Position(os, k) <= NPROC
      ensures Outcome(ts[k], Position(os, k)) == First(ts[k], Position(os, k))
    {
      EqualOutcome(ts[k], Position(os, k));
    }
  }

  /** How many outcomes come before entry `q` from position `p` at most, the end of a pass among them. */
  function Distance(p: nat, q: nat): (d: nat)
    requires p <= NPROC && q < NPROC
    ensures d <= NPROC
  {
    if p <= q then q - p else NPROC - p + 1 + q
  }

  function Dispatches(os: seq<nat>): (n: nat) {
    if os == [] then 0 else (if os[0] < NPROC then 1 else 0) + Dispatches(os[1..])
  }

  /** How many of them are dispatches. */
  function Ahead(p: nat, q: nat): (d: nat)
    requires p <= NPROC && q < NPROC
    ensures d < NPROC
  {
    if p <= q then q - p else NPROC - p + q
  }

  lemma Closer(t: Table, p: nat, q: nat)
    requires p <= NPROC && q < NPROC && t[q].runnable && First(t, p) != q
    ensures var p' := After(First(t, p));
            && p' <= NPROC && Distance(p', q) < Distance(p, q)
            && Ahead(p', q) + (if First(t, p) < NPROC then 1 else 0) <= Ahead(p, q)
  {
  }

  lemma RobinStep(ts: seq<Table>, os: seq<nat>, k: nat)
    requires RoundRobin(ts, os) && k < |ts|
    ensures |os| == |ts| && Position(os, k) <= NPROC && os[k] == First(ts[k], Position(os, k))
    ensures Position(os, k + 1) == After(os[k])
  {
  }

  /** From table `k` on, entry `q` runs after at most so many outcomes and dispatches. */
  lemma {:induction false} RunsSoon(ts: seq<Table>, os: seq<nat>, k: nat, q: nat) returns (m: nat)
    requires RoundRobin(ts, os) && q < NPROC && k < |ts| && Position(os, k) <= NPROC
    requires k + Distance(Position(os, k), q) < |ts| && forall j :: 0 <= j < |ts| ==> ts[j][q].runnable
    ensures k <= m <= k + Distance(Position(os, k), q) && m < |os| && os[m] == q
    ensures Dispatches(os[k..m]) <= Ahead(Position(os, k), q)
    decreases |ts| - k
  {
    hide First, Distance, Ahead, After, RoundRobin, Position;
    RobinStep(ts, os, k);
    var p := Position(os, k);
    if os[k] == q {
      m := k;
      assert os[k..m] == [];
    } else {
      Closer(ts[k], p, q);
      m := RunsSoon(ts, os, k + 1, q);
      assert os[k..m][1..] == os[k + 1..m];
    }
  }

  /** With equal priorities, a process that stays RUNNABLE is dispatched with fewer than NPROC dispatches before it. */
  lemma RunsWithinTable(ts: seq<Table>, os: seq<nat>, k: nat, q: nat) returns (m: nat)
    requires Runs(ts, os) && AllEqual(ts) && q < NPROC && k + NPROC < |ts|
    requires forall j :: 0 <= j < |ts| ==> ts[j][q].runnable
    ensures k <= m <= k + NPROC && os[m] == q && Dispatches(os[k..m]) < NPROC
  {
    EqualIsRoundRobin(ts, os);
    m := RunsSoon(ts, os, k, q);
  }
}
