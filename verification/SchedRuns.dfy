/** Whole runs of the scheduler: any sequence of ticks, picks, yields, sleeps, wake-ups, forks, exits
    and calls of set_cpu_share from userinit on. */
module SchedRuns {
  import opened SchedSpec
  import opened Sched

  lemma PickOk(s: S, b: nat, t: S)
    requires Ok(s) && Next(s, Pick(b), t)
    ensures Ok(t)
  {
    hide Linked, Counted, Allotted, TicksOk, StrideOk;
    var u := t.(procs := s.procs, cur := -1);
    NotGone(u, b, t.cur, s);
    if u != s {
      var l: nat, i: nat :| FirstRunnable(s, l, i) && u == s.(mq := s.mq[l := s.mq[l].(recent := i)]);
      PickKeeps(s, u, l, i);
    }
    StatesOnly(u, t);
  }

  lemma ForkOk(s: S, p: nat, i: nat, t: S)
    requires Ok(s) && Next(s, Fork(p, i), t)
    ensures Ok(t)
  {
    hide Linked, Counted, Allotted, TicksOk, StrideOk;
    var s1 := s.(procs := s.procs[p := s.procs[p].(state := RUNNABLE, pstride := 0)]);
    QueueOnly(s, s1, p);
    StrideOnly(s, s1, p);
    InsertRest(s1, p, i);
  }

  lemma ExitOk(s: S, t: S)
    requires Ok(s) && Next(s, Exit, t)
    ensures Ok(t)
  {
    hide Linked, Counted, Allotted, TicksOk, StrideOk;
    var p := s.cur;
    if s.procs[p].sched == STRIDE {
      LeftStride(s, p);
      StrideOnly(s, Left(s, p), p);
      QueueAgain(Left(s, p), t);
    } else {
      CallerMlfq(s);
      RemoveRest(s, p);
      QueueAgain(Remove(s, p), t);
    }
  }

  lemma ShareOk(s: S, x: int, e: nat, pass: int, t: S)
    requires Ok(s) && Next(s, Share(x, e, pass), t)
    ensures Ok(t)
  {
    hide Linked, Counted, Allotted, TicksOk, StrideOk;
    var p := s.cur;
    RemoveRest(s, p);
    var u := Remove(s, p);
    JoinedStride(u, p, e, x, pass);
    StrideOnly(u, t, p);
  }

  /** Every step keeps the whole invariant. */
  lemma StepOk(s: S, ev: Event, t: S)
    requires Ok(s) && Next(s, ev, t)
    ensures Ok(t)
  {
    hide Linked, Counted, Allotted, TicksOk, StrideOk;
    match ev
    case Tick(quits) => TickOk(s, t, quits);
    case Pick(b) => PickOk(s, b, t);
    case Fork(p, i) => ForkOk(s, p, i, t);
    case Exit => ExitOk(s, t);
    case Share(x, e, pass) => ShareOk(s, x, e, pass, t);
    case _ => StatesOnly(s, t);
  }

  ghost predicate Run(ss: seq<S>, evs: seq<Event>) {
    && |ss| == |evs| + 1 && Booted(ss[0])
    && forall k :: 0 <= k < |evs| ==> Shaped(ss[k]) && Next(ss[k], evs[k], ss[k + 1])
  }

  lemma {:induction false} RunKeepsOk(ss: seq<S>, evs: seq<Event>, k: nat)
    requires Run(ss, evs) && k <= |evs|
    ensures Ok(ss[k])
  {
    hide Ok, Next, Booted;
    if k == 0 {
      BootedOk(ss[0]);
    } else {
      RunKeepsOk(ss, evs, k - 1);
      StepOk(ss[k - 1], evs[k - 1], ss[k]);
    }
  }

  /** In every state of every run: the boost is never starved, tickets are conserved, and the two tables
      account for exactly the processes that are neither free nor zombies. */
  lemma EveryRun(ss: seq<S>, evs: seq<Event>, k: nat)
    requires Run(ss, evs) && k <= |evs|
    ensures var s := ss[k];
            && Shaped(s)
            && 0 <= AllTicks(s) <= s.ticks <= 99 + 3 * NPROC
            && Sum(s.st, SlotTickets) == 100 && s.st[0].used && s.st[0].tickets >= 20
            && (forall i :: 0 <= i < NPROC && s.st[i].used ==>
                  s.st[i].tickets >= 1 && s.st[i].stride == STRIDE1 / s.st[i].tickets && 0 <= s.st[i].pass <= PASSMAX)
            && (forall l :: 0 <= l < 3 ==> s.mq[l].count == Sum(s.mq[l].table, NodeUsed))
            && (forall p :: 0 <= p < NPROC ==> (s.procs[p].sched == NONE <==> s.procs[p].state in {UNUSED, ZOMBIE}))
            && (forall p :: 0 <= p < NPROC && s.procs[p].sched == MLFQ ==>
                  s.procs[p].level < 3 && s.procs[p].index < NPROC && NodeOf(s, p).used && NodeOf(s, p).proc == p)
  {
    RunKeepsOk(ss, evs, k);
    hide Potential;
    BoostInTime(ss[k]);
    TicksNatural(ss[k]);
  }

  lemma TicksNatural(s: S)
    requires Shaped(s)
    ensures AllTicks(s) >= 0
  {
    forall l | 0 <= l < 3 ensures Sum(s.mq[l].table, NodeTicks) >= 0 {
      NaturalSum(s.mq[l].table);
    }
  }

  lemma {:induction false} NaturalSum(t: seq<Node>)
    ensures Sum(t, NodeTicks) >= 0
  {
    if t != [] { NaturalSum(t[..|t| - 1]); }
  }

  /* ---------- Levels and allotments ---------- */

  /** Process p is at level l with e ticks. */
  ghost predicate Stands(s: S, p: nat, l: nat, e: nat) {
    && Shaped(s) && p < NPROC && l < 3 && s.procs[p].sched == MLFQ && s.procs[p].level == l && s.procs[p].index < NPROC
    && s.mq[l].table[s.procs[p].index] == Node(true, e, p)
  }

  /** Only its own ticks and a boost move a process that stays under the feedback queue. */
  lemma StandsStep(s: S, ev: Event, t: S, p: nat, l: nat, e: nat)
    requires Ok(s) && Ok(t) && Next(s, ev, t) && Stands(s, p, l, e) && t.procs[p].sched == MLFQ && s.ticks <= t.ticks
    ensures var e' := if ev.Tick? && s.cur == p then e + 1 else e;
            Stands(t, p, if (l == 0 && e' == 5) || (l == 1 && e' == 10) then l + 1 else l,
                   if (l == 0 && e' == 5) || (l == 1 && e' == 10) then 0 else e')
  {
    hide Linked, Counted, Allotted, TicksOk, StrideOk, RunOk;
    StandsBelow(s, p, l, e);
    match ev
    case Tick(quits) => StandsTick(s, quits, t, p, l, e);
    case Fork(q, i) =>
      FreeSlot(s, q);
      StandsInsert(s.(procs := s.procs[q := s.procs[q].(state := RUNNABLE, pstride := 0)]), q, 0, i, p, l, e);
    case Exit =>
      if s.procs[s.cur].sched != STRIDE {
        CallerMlfq(s);
        StandsRemove(s, s.cur, p, l, e);
      }
    case Share(x, i, pass) => StandsRemove(s, s.cur, p, l, e);
    case _ =>
  }

  lemma FreeSlot(s: S, q: nat)
    requires Ok(s) && q < NPROC && s.procs[q].state == UNUSED
    ensures s.procs[q].sched == NONE
  {
    hide MlfqOk, Allotted, TicksOk, StrideOk;
  }

  lemma StandsBelow(s: S, p: nat, l: nat, e: nat)
    requires Ok(s) && Stands(s, p, l, e)
    ensures (l == 0 ==> e < 5) && (l == 1 ==> e < 10)
  {
  }

  lemma StandsTick(s: S, quits: bool, t: S, p: nat, l: nat, e: nat)
    requires Ok(s) && Ok(t) && Next(s, Tick(quits), t) && Stands(s, p, l, e) && s.ticks <= t.ticks
    ensures var e' := if s.cur == p then e + 1 else e;
            Stands(t, p, if s.cur == p && ((l == 0 && e' == 5) || (l == 1 && e' == 10)) then l + 1 else l,
                   if s.cur == p && ((l == 0 && e' == 5) || (l == 1 && e' == 10)) then 0 else e')
  {
    hide Linked, Counted, Allotted, TicksOk, StrideOk, RunOk, QueueTick;
    if s.procs[s.cur].sched == MLFQ { TickExactly(s, t, quits); }
  }

  lemma StandsInsert(s: S, q: nat, k: nat, i: nat, p: nat, l: nat, e: nat)
    requires Stands(s, p, l, e) && q < NPROC && q != p && k < 3 && i < NPROC && !s.mq[k].table[i].used
    ensures Stands(Insert(s, q, k, i), p, l, e)
  {
  }

  lemma StandsRemove(s: S, q: nat, p: nat, l: nat, e: nat)
    requires MlfqOk(s) && Stands(s, p, l, e) && q < NPROC && q != p && s.procs[q].sched == MLFQ
    ensures s.procs[q].level < 3 && s.procs[q].index < NPROC && Stands(Remove(s, q), p, l, e)
  {
  }

  /** The ticks of process p from moment a to moment z. */
  ghost function TicksOf(ss: seq<S>, evs: seq<Event>, p: nat, a: nat, z: nat): nat
    requires Run(ss, evs) && a <= z <= |evs|
  {
    if z == a then 0 else TicksOf(ss, evs, p, a, z - 1) + if evs[z - 1].Tick? && ss[z - 1].cur == p then 1 else 0
  }

  /** From a moment at which it stands at level 0 without ticks, as after fork and after each boost, and until the next
      boost, a process that stays under the feedback queue has its first 5 ticks at level 0, the next 10 at level 1 and
      all others at level 2. */
  lemma {:induction false} LevelByTicks(ss: seq<S>, evs: seq<Event>, p: nat, a: nat, z: nat)
    requires Run(ss, evs) && a <= z <= |evs| && Stands(ss[a], p, 0, 0)
    requires forall k :: a < k <= z ==> Shaped(ss[k]) && ss[k].procs[p].sched == MLFQ && ss[k - 1].ticks <= ss[k].ticks
    ensures var n, s := TicksOf(ss, evs, p, a, z), ss[z];
            && Shaped(s) && s.procs[p].level == (if n < 5 then 0 else if n < 15 then 1 else 2) && s.procs[p].index < 64
            && s.mq[s.procs[p].level].table[s.procs[p].index] ==
                 Node(true, if n < 5 then n else if n < 15 then n - 5 else n - 15, p)
  {
    hide Ok, Next, Booted;
    if a < z {
      LevelByTicks(ss, evs, p, a, z - 1);
      RunKeepsOk(ss, evs, z - 1);
      RunKeepsOk(ss, evs, z);
      var n := TicksOf(ss, evs, p, a, z - 1);
      StandsStep(ss[z - 1], evs[z - 1], ss[z], p, if n < 5 then 0 else if n < 15 then 1 else 2,
                 if n < 5 then n else if n < 15 then n - 5 else n - 15);
    }
  }

  /** The boost lifts everybody under the feedback queue to that state, and comes after 100 of their ticks at the earliest:
      schedticks counts them from one boost to the next. */
  lemma BoostAt(s: S, ev: Event, t: S)
    requires Ok(s) && Ok(t) && Next(s, ev, t)
    ensures t.ticks == s.ticks || t.ticks == s.ticks + 1 || t.ticks == 0
    ensures t.ticks < s.ticks ==> ev.Tick? && s.ticks + 1 >= 100 && t.ticks == 0
    ensures t.ticks < s.ticks ==> forall p :: 0 <= p < NPROC && t.procs[p].sched == MLFQ ==> Stands(t, p, 0, 0)
  {
    hide Linked, Counted, Allotted, TicksOk, StrideOk, RunOk, QueueTick;
    match ev
    case Tick(quits) => if s.procs[s.cur].sched == MLFQ { TickExactly(s, t, quits); }
    case _ =>
  }

  /* ---------- Bounded waiting ---------- */

  /** A turn of scheduler that picks from level l of the feedback queue. */
  ghost predicate PicksAt(s: S, ev: Event, l: nat)
    requires Shaped(s)
  {
    ev == Pick(0) && exists i: nat :: FirstRunnable(s, l, i)
  }

  /** Only such a turn moves the recent index of level l, to the node it picks. */
  lemma StepRecent(s: S, ev: Event, t: S, l: nat)
    requires Ok(s) && Ok(t) && Next(s, ev, t) && l < 3
    ensures !PicksAt(s, ev, l) ==> t.mq[l].recent == s.mq[l].recent
    ensures PicksAt(s, ev, l) ==> FirstRunnable(s, l, t.mq[l].recent) && t.cur == s.mq[l].table[t.mq[l].recent].proc
  {
    hide Linked, Counted, Allotted, TicksOk, StrideOk, RunOk;
    match ev
    case Tick(quits) => TickRecent(s, t, quits, l);
    case Pick(b) =>
      if b == 0 && !NoneRunnable(s) {
        var k: nat, i: nat :| FirstRunnable(s, k, i) && t.cur == s.mq[k].table[i].proc && t.(procs := s.procs, cur := -1) == s.(mq := s.mq[k := s.mq[k].(recent := i)]);
        assert t.mq == t.(procs := s.procs, cur := -1).mq;
        if PicksAt(s, ev, l) {
          var j: nat :| FirstRunnable(s, l, j);
          assert k == l;
        }
      } else {
        assert t.mq == t.(procs := s.procs, cur := -1).mq;
      }
    case _ =>
  }

  lemma TickRecent(s: S, t: S, quits: bool, l: nat)
    requires Shaped(s) && Shaped(t) && 0 <= s.cur < NPROC && s.procs[s.cur].pstride < NPROC && TickStep(s, t, quits) && l < 3
    ensures t.mq[l].recent == s.mq[l].recent
  {
    if s.procs[s.cur].sched == MLFQ {
      var s' := s.(st := Charged(s.st, s.procs[s.cur].pstride));
      var v :| QueueTick(s', v, t, quits);
      hide Charged;
      assert Shaped(v) && v.mq[l].recent == s.mq[l].recent;
    }
  }

  /** How many turns from moment a to moment k pick from level l. */
  ghost function Picks(ss: seq<S>, evs: seq<Event>, l: nat, a: nat, k: nat): nat
    requires Run(ss, evs) && a <= k <= |evs|
  {
    if k == a then 0 else Picks(ss, evs, l, a, k - 1) + if PicksAt(ss[k - 1], evs[k - 1], l) then 1 else 0
  }

  /** At turn k node j of level l is picked. */
  ghost predicate Chosen(ss: seq<S>, evs: seq<Event>, l: nat, j: nat, k: nat)
    requires Run(ss, evs) && k < |evs| && l < 3 && j < NPROC
  {
    && PicksAt(ss[k], evs[k], l) && FirstRunnable(ss[k], l, j)
    && Shaped(ss[k + 1]) && ss[k + 1].mq[l].recent == j && ss[k + 1].cur == ss[k].mq[l].table[j].proc
  }

  lemma {:induction false} ScanNearer(ss: seq<S>, evs: seq<Event>, l: nat, j: nat, a: nat, k: nat)
    requires Run(ss, evs) && a <= k <= |evs| && l < 3 && j < NPROC
    requires forall x :: a <= x < k && PicksAt(ss[x], evs[x], l) ==> RunnableAt(ss[x], l, j) && !Chosen(ss, evs, l, j, x)
    ensures Shaped(ss[a]) && Shaped(ss[k])
    ensures Dist(ss[k].mq[l].recent, j) + Picks(ss, evs, l, a, k) <= Dist(ss[a].mq[l].recent, j)
  {
    hide Ok, Next, Booted;
    RunKeepsOk(ss, evs, k);
    RunShaped(ss[k]);
    if k > a {
      ScanNearer(ss, evs, l, j, a, k - 1);
      RunKeepsOk(ss, evs, k - 1);
      StepRecent(ss[k - 1], evs[k - 1], ss[k], l);
      if PicksAt(ss[k - 1], evs[k - 1], l) {
        Nearer(ss[k - 1].mq[l].recent, ss[k].mq[l].recent, j);
      }
    }
  }

  lemma RunShaped(s: S)
    requires Ok(s)
    ensures Shaped(s)
  {
  }

  /** Bounded waiting, in any part of any run: a node that can run whenever its level is picked from is one of
      any NPROC picks in a row from that level. */
  lemma WithinNproc(ss: seq<S>, evs: seq<Event>, l: nat, j: nat, a: nat, z: nat)
    requires Run(ss, evs) && a <= z <= |evs| && l < 3 && j < NPROC
    requires forall k :: a <= k < z && PicksAt(ss[k], evs[k], l) ==> RunnableAt(ss[k], l, j)
    requires Picks(ss, evs, l, a, z) >= NPROC
    ensures exists k :: a <= k < z && Chosen(ss, evs, l, j, k)
  {
    hide Ok, Next, Booted, PicksAt, RunnableAt, Chosen;
    if !exists k :: a <= k < z && Chosen(ss, evs, l, j, k) {
      ScanNearer(ss, evs, l, j, a, z);
    }
  }

  /* ---------- A client that is passed over ---------- */

  /** userinit. */
  function Start(): (s: S)
    ensures Shaped(s)
  {
    var nodes := seq(NPROC, _ => EMPTY_NODE);
    S(seq(NPROC, p => if p == 0 then Proc(RUNNABLE, MLFQ, 0, 0, 0) else Proc(UNUSED, NONE, 0, 0, 0)),
      [Queue(nodes[0 := Node(true, 0, 0)], 1, 0), Queue(nodes, 0, 0), Queue(nodes, 0, 0)],
      seq(NPROC, i => if i == 0 then Slot(true, 100, STRIDE1 / 100, 0, 0) else Slot(false, 0, 0, 0, -1)), 0, -1)
  }

  /** Process p, in node i of level 0, is dispatched. */
  function Dispatched(s: S, p: nat, i: nat): (t: S)
    requires Shaped(s) && p < NPROC && i < NPROC
    ensures Shaped(t)
  {
    s.(procs := s.procs[p := s.procs[p].(state := RUNNING)], mq := s.mq[0 := s.mq[0].(recent := i)], cur := p)
  }

  function Parked(s: S, state: ProcState): (t: S)
    requires Shaped(s) && 0 <= s.cur < NPROC
    ensures Shaped(t)
  {
    s.(procs := s.procs[s.cur := s.procs[s.cur].(state := state)], cur := -1)
  }

  /** init has forked process 1. */
  function Forked(): (s: S)
    ensures Shaped(s) && s.cur == 0
  {
    var s := Dispatched(Start(), 0, 0);
    Insert(s.(procs := s.procs[1 := s.procs[1].(state := RUNNABLE, pstride := 0)]), 1, 0, 1)
  }

  /** init sleeps in wait, and process 1 has been given 20 tickets as the first client. */
  function Bought(): (s: S)
    ensures Shaped(s) && s.cur == 1
  {
    var s := Dispatched(Parked(Forked(), SLEEPING), 1, 1);
    Joined(Remove(s, 1), 1, 1, 20, PASSMAX)
  }

  function PassedOverRun(): seq<S> {
    [Start(), Dispatched(Start(), 0, 0), Forked(), Parked(Forked(), SLEEPING),
     Dispatched(Parked(Forked(), SLEEPING), 1, 1), Bought(), Parked(Bought(), RUNNABLE)]
  }

  /** Then that run has reached a state in which process 1 can run and init, which cannot, is picked. */
  lemma PassedOver()
    ensures var ss := PassedOverRun();
            var s := ss[6];
            && Run(ss, [Pick(0), Fork(1, 1), Leave(SLEEPING), Pick(0), Share(20, 1, PASSMAX), Leave(RUNNABLE)])
            && s.cur == -1 && s.procs[1].state == RUNNABLE && Competes(s, 1) && s.procs[0].state == SLEEPING
            && PickStep(s, s, 0, 0)
  {
    StartBooted();
    ForkStep();
    SecondPick();
    ShareStep();
    LastPick();
    hide Next, Start, Dispatched, Forked, Bought, Booted, PickStep;
    ParkStep(Forked(), SLEEPING);
    ParkStep(Bought(), RUNNABLE);
  }

  lemma StartBooted()
    ensures Booted(Start()) && Next(Start(), Pick(0), Dispatched(Start(), 0, 0))
  {
    var s := Start();
    assert FirstRunnable(s, 0, 0) && LeastPass(s, 0);
    assert s.mq == s.mq[0 := s.mq[0].(recent := 0)];
  }

  lemma ForkStep()
    ensures Next(Dispatched(Start(), 0, 0), Fork(1, 1), Forked())
  {
  }

  lemma ParkStep(s: S, state: ProcState)
    requires Shaped(s) && 0 <= s.cur < NPROC && state in {RUNNABLE, SLEEPING}
    ensures Next(s, Leave(state), Parked(s, state))
  {
  }

  lemma SecondPick()
    ensures var s := Parked(Forked(), SLEEPING); Next(s, Pick(0), Dispatched(s, 1, 1))
  {
    var s := Parked(Forked(), SLEEPING);
    assert FirstRunnable(s, 0, 1) && LeastPass(s, 0);
  }

  lemma ShareStep()
    ensures Next(Dispatched(Parked(Forked(), SLEEPING), 1, 1), Share(20, 1, PASSMAX), Bought())
  {
  }

  lemma LastPick()
    ensures var s := Parked(Bought(), RUNNABLE);
            && s.cur == -1 && s.procs[1].state == RUNNABLE && Competes(s, 1) && s.procs[0].state == SLEEPING
            && PickStep(s, s, 0, 0)
  {
    var s := Parked(Bought(), RUNNABLE);
    assert LeastPass(s, 0) && NoneRunnable(s) && Fallback(s, 0);
  }
}
