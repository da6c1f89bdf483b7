/** sched.c and the scheduling parts of proc.c, every function one atomic step under ptable.lock. */
module Sched {
  import opened SchedSpec

  class Scheduler {
    var procs: seq<Proc>   // ptable.proc
    var mq: seq<Queue>     // m_table
    var st: seq<Slot>      // s_table
    var ticks: nat         // schedticks
    var cur: int           // the process on the CPU

    ghost function Now(): S
      reads this
    {
      S(procs, mq, st, ticks, cur)
    }

    /** pick_mlfq; -1 stands for the null pointer. */
    method PickMlfq() returns (p: int, ghost l: nat, ghost i: nat)
      requires MlfqOk(Now())
      modifies this`mq
      ensures p == -1 <==> NoneRunnable(old(Now()))
      ensures p == -1 ==> Now() == old(Now())
      ensures p != -1 ==> FirstRunnable(old(Now()), l, i) && p == old(mq)[l].table[i].proc
      // in the first level with a runnable process it is the first one upwards from recent, around the end of the table
      ensures p != -1 ==> 0 <= p < NPROC && procs[p].state == RUNNABLE && old(mq)[l].table[i].used
      ensures p != -1 ==> forall k, j :: 0 <= k <= l && 0 <= j < 64 && old(mq)[k].table[j].used && procs[old(mq)[k].table[j].proc].state == RUNNABLE ==>
                k == l && (i - old(mq)[l].recent - 1) % 64 <= (j - old(mq)[l].recent - 1) % 64
      ensures p != -1 ==> Now() == old(Now()).(mq := old(mq)[l := old(mq)[l].(recent := i)])
    {
      hide Linked, Counted, RunnableAt;
      l, i := 0, 0;
      ghost var s := Now();
      Pointers(s);
      var prior := 0;
      while prior < 3
        invariant 0 <= prior <= 3 && Now() == s
        invariant forall k, j :: 0 <= k < prior && 0 <= j < NPROC ==> !RunnableAt(s, k, j)
      {
        EmptyLevel(s, prior);
        if mq[prior].count != 0 {
          var recent := ScanLevel(prior);
          if recent >= 0 {
            p := mq[prior].table[recent].proc;
            mq := mq[prior := mq[prior].(recent := recent)];
            l, i := prior, recent;
            FirstExactly(s, l, i);
            return;
          }
        }
        prior := prior + 1;
      }
      p := -1;
    }

    /** The scan of one level, from behind recent round to recent itself: the first runnable node, or -1. */
    method ScanLevel(prior: nat) returns (recent: int)
      requires MlfqOk(Now()) && prior < 3
      ensures -1 <= recent < NPROC
      ensures recent == -1 ==> forall j :: 0 <= j < NPROC ==> !RunnableAt(Now(), prior, j)
      ensures recent >= 0 ==> RunnableAt(Now(), prior, recent)
      ensures recent >= 0 ==> forall j :: 0 <= j < NPROC && RunnableAt(Now(), prior, j) ==> Dist(mq[prior].recent, recent) <= Dist(mq[prior].recent, j)
    {
      hide Linked, Counted;
      ghost var s := Now();
      Pointers(s);
      recent := mq[prior].recent;
      ghost var n := 0;
      var again := true;
      while again
        invariant 0 <= n <= NPROC && recent == (s.mq[prior].recent + n) % NPROC
        invariant again <==> n < NPROC
        invariant forall j :: 0 <= j < NPROC && Dist(s.mq[prior].recent, j) < n ==> !RunnableAt(s, prior, j)
        decreases NPROC - n
      {
        recent := (recent + 1) % NPROC;
        assert Dist(s.mq[prior].recent, recent) == n;
        if mq[prior].table[recent].used && procs[mq[prior].table[recent].proc].state == RUNNABLE {
          assert RunnableAt(s, prior, recent);
          return;
        }
        again := mq[prior].recent != recent;
        n := n + 1;
      }
      recent := -1;
    }

    /** pop_mlfq */
    method PopMlfq(p: nat) returns (r: int)
      requires MlfqOk(Now()) && p < NPROC
      modifies this`procs, this`mq
      ensures r == if old(procs)[p].sched == MLFQ then 0 else -1
      ensures r == -1 ==> Now() == old(Now())
      ensures r == 0 ==> old(procs)[p].level < 3 && old(procs)[p].index < NPROC && Now() == Remove(old(Now()), p)
      // the node is empty, and the other nodes and processes are as before
      ensures r == 0 ==> procs == old(procs)[p := old(procs)[p].(sched := NONE)]
      ensures r == 0 ==> forall k, j :: 0 <= k < 3 && 0 <= j < 64 ==>
                mq[k].table[j] == if k == old(procs)[p].level && j == old(procs)[p].index then Node(false, 0, -1) else old(mq)[k].table[j]
      ensures MlfqOk(Now())
    {
      hide Linked, Counted;
      if procs[p].sched != MLFQ {
        return -1;
      }
      ghost var s := Now();
      RemoveOk(s, p);
      OnlyNode(s, p);
      var prior := 0;
      while prior < 3
        invariant 0 <= prior <= s.procs[p].level && Now() == s
      {
        var m := 0;
        while m < NPROC
          invariant 0 <= m <= NPROC && Now() == s
          invariant prior == s.procs[p].level ==> m <= s.procs[p].index
        {
          if mq[prior].table[m].proc == p {
            procs := procs[p := procs[p].(sched := NONE)];
            mq := mq[prior := Queue(mq[prior].table[m := EMPTY_NODE], mq[prior].count - 1, mq[prior].recent)];
            return 0;
          }
          m := m + 1;
        }
        prior := prior + 1;
      }
      assert false;
    }

    /** push_mlfq; i is the node it takes. */
    method PushMlfq(p: nat, prior: int) returns (r: int, ghost i: nat)
      requires MlfqOk(Now()) && p < NPROC && procs[p].sched != MLFQ
      modifies this`procs, this`mq
      ensures r == if 0 <= prior <= 2 then 0 else -1
      ensures r == -1 ==> Now() == old(Now())
      ensures r == 0 ==> i < NPROC && !old(mq)[prior].table[i].used && Now() == Insert(old(Now()), p, prior, i)
      ensures r == 0 ==> forall j :: 0 <= j < i ==> old(mq)[prior].table[j].used
      ensures r == 0 ==> procs == old(procs)[p := old(procs)[p].(sched := MLFQ, level := prior, index := i)]
      ensures r == 0 ==> forall k, j :: 0 <= k < 3 && 0 <= j < 64 ==>
                mq[k].table[j] == if k == prior && j == i then Node(true, 0, p) else old(mq)[k].table[j]
      ensures MlfqOk(Now())
    {
      hide Linked, Counted;
      i := 0;
      if prior < 0 || prior > 2 {
        return -1, i;
      }
      ghost var s := Now();
      ghost var room := Room(s, p, prior);
      procs := procs[p := procs[p].(sched := MLFQ)];
      var m := 0;
      while m < NPROC
        invariant 0 <= m <= room && mq == s.mq
        invariant forall j :: 0 <= j < m ==> s.mq[prior].table[j].used
      {
        if !mq[prior].table[m].used {
          break;
        }
        m := m + 1;
      }
      i := m;
      mq := mq[prior := Queue(mq[prior].table[m := Node(true, 0, p)], mq[prior].count + 1, mq[prior].recent)];
      procs := procs[p := procs[p].(level := prior, index := m)];
      InsertOk(s, p, prior, i);
      r := 0;
    }

    /** move_prior */
    method MovePrior(p: nat, prior: nat) returns (r: int, ghost i: nat)
      requires MlfqOk(Now()) && p < NPROC && prior < 3
      modifies this`procs, this`mq
      ensures r == if old(procs)[p].sched == MLFQ then 0 else -1
      ensures r == -1 ==> Now() == old(Now())
      ensures r == 0 ==> old(procs)[p].level < 3 && old(procs)[p].index < NPROC
      ensures r == 0 ==> var t := Remove(old(Now()), p);
                i < NPROC && !t.mq[prior].table[i].used && Now() == Insert(t, p, prior, i) && MlfqOk(t)
      ensures MlfqOk(Now())
    {
      hide Linked, Counted;
      i := 0;
      r := PopMlfq(p);
      if r == -1 {
        return;
      }
      r, i := PushMlfq(p, prior);
    }

    /** prior_boost */
    method PriorBoost()
      requires MlfqOk(Now())
      modifies this`procs, this`mq, this`ticks
      ensures Boosted(old(Now()), Now())
    {
      hide Linked, Counted;
      ghost var s := Now();
      var p := 0;
      while p < NPROC
        invariant 0 <= p <= NPROC && MlfqOk(Now()) && ticks == s.ticks
        invariant forall q :: 0 <= q < NPROC ==> procs[q].(level := 0, index := 0) == s.procs[q].(level := 0, index := 0)
        invariant forall q :: 0 <= q < p && s.procs[q].sched == MLFQ ==>
                    procs[q].level == 0 && procs[q].index < NPROC && NodeOf(Now(), q).used && NodeOf(Now(), q).eticks == 0
        invariant forall l :: 0 <= l < 3 ==> mq[l].recent == s.mq[l].recent
      {
        if procs[p].sched != STRIDE {
          ghost var t := Now();
          ghost var i;
          var r;
          r, i := MovePrior(p, 0);
          if r == 0 {
            MoveElsewhere(t, p, 0, i);
          }
        }
        p := p + 1;
      }
      ticks := 0;
      SameQueue(Now().(ticks := s.ticks), Now());
    }

    /** add_pass_stride; no sum exceeds 32 bits on the way. */
    method AddPassStride()
      requires Shaped(Now()) && 0 <= cur < NPROC && procs[cur].pstride < NPROC
      requires var x := st[procs[cur].pstride]; 0 <= x.pass <= PASSMAX && 0 <= x.stride <= STRIDE1
      modifies this`st
      ensures st == Charged(old(st), procs[cur].pstride)
      // the slot of the running process is charged its stride; beyond 1000000000 every used slot starts again from 0
      ensures var s := procs[cur].pstride;
              var pass := old(st)[s].pass + old(st)[s].stride;
              && (pass <= 1000000000 ==> st == old(st)[s := old(st)[s].(pass := pass)])
              && (pass > 1000000000 ==> forall j :: 0 <= j < 64 && old(st)[j].used ==> st[j] == old(st)[j].(pass := 0))
              && (pass > 1000000000 ==> forall j :: 0 <= j < 64 && j != s && !old(st)[j].used ==> st[j] == old(st)[j])
    {
      var s := procs[cur].pstride;
      var pass := st[s].pass + st[s].stride;
      assert pass < 0x8000_0000;
      st := st[s := st[s].(pass := pass)];
      if pass > PASSMAX {
        var i := 0;
        while i < NPROC
          invariant 0 <= i <= NPROC && |st| == NPROC
          invariant forall j :: 0 <= j < NPROC && j != s ==>
                      st[j] == if j < i && old(st)[j].used then old(st)[j].(pass := 0) else old(st)[j]
          invariant st[s] == old(st)[s].(pass := if s < i && old(st)[s].used then 0 else pass)
        {
          if st[i].used {
            st := st[i := st[i].(pass := 0)];
          }
          i := i + 1;
        }
      }
    }

    /** add_tick for the running process: charge its slot, then its node; demote, boost, and tell
        whether it must yield. */
    method AddTick() returns (quits: bool)
      requires Ok(Now()) && 0 <= cur
      modifies this`procs, this`mq, this`st, this`ticks
      ensures old(procs)[cur].pstride < NPROC && TickStep(old(Now()), Now(), quits)
      ensures Next(old(Now()), Tick(quits), Now())
      ensures Ok(Now())
      // a stride client only has its slot charged, and yields
      ensures old(procs)[cur].sched != MLFQ ==> quits && procs == old(procs) && mq == old(mq) && ticks == old(ticks)
      // otherwise e is its tick count at level l, and it goes down exactly at its fifth tick at level 0 and its tenth at level 1
      ensures old(procs)[cur].sched == MLFQ ==>
        var l := old(procs)[cur].level;
        l < 3 && old(procs)[cur].index < 64 &&
        var e := old(mq)[l].table[old(procs)[cur].index].eticks + 1;
        var down := (l == 0 && e == 5) || (l == 1 && e == 10);
        var boost := quits && old(ticks) + 1 >= 100;
        && (quits <==> l == 0 || (l == 1 && e % 2 == 0) || (l == 2 && e % 4 == 0))
        && ticks == (if boost then 0 else old(ticks) + 1)
        && (!boost ==> procs[cur].level == (if down then l + 1 else l) && procs[cur].index < 64 &&
                       mq[procs[cur].level].table[procs[cur].index] == Node(true, if down then 0 else e, cur))
        && forall q :: 0 <= q < 64 && old(procs)[q].sched == MLFQ ==>
             && procs[q].index < 64
             && (boost ==> procs[q].level == 0 && mq[0].table[procs[q].index] == Node(true, 0, q))
             && (!boost && q != cur ==> procs[q] == old(procs)[q] && procs[q].level < 3 &&
                                        mq[procs[q].level].table[procs[q].index] == old(mq)[procs[q].level].table[procs[q].index])
    {
      hide Linked, Counted, Allotted, TicksOk, StrideOk, Charged, Boosted;
      ghost var s := Now();
      PointerHere(s, cur);
      RunningSlot(s);
      SlotBounds(s, procs[cur].pstride);
      TickOkAll(s);
      AddPassStride();
      if procs[cur].sched != MLFQ {
        return true;
      }
      ghost var s' := Now();
      SameQueue(s, s');
      ghost var v;
      quits, v := ChargeNode();
      TickWitness(s, s', v, Now(), quits);
      TickExactly(s, Now(), quits);
    }

    /** The rest of add_tick, for a process under the feedback queue; v is the state before the boost. */
    method ChargeNode() returns (quits: bool, ghost v: S)
      requires MlfqOk(Now()) && 0 <= cur < NPROC && procs[cur].sched == MLFQ
      modifies this`procs, this`mq, this`ticks
      ensures QueueTick(old(Now()), v, Now(), quits)
    {
      hide Linked, Counted, Boosted;
      ghost var s' := Now();
      PointerHere(s', cur);
      var l, m := procs[cur].level, procs[cur].index;
      ticks := ticks + 1;
      var tick := ticks;
      var elapsed := mq[l].table[m].eticks + 1;
      mq := mq[l := mq[l].(table := mq[l].table[m := mq[l].table[m].(eticks := elapsed)])];
      ghost var u := Now();
      assert u == Charge(s', cur);
      ChargeMlfq(s', cur);
      ghost var i;
      var r;
      match l {
        case 0 =>
          if elapsed >= 5 {
            r, i := MovePrior(cur, 1);
          }
          quits := true;
        case 1 =>
          if elapsed >= 10 {
            r, i := MovePrior(cur, 2);
          }
          quits := elapsed % 2 == 0;
        case _ =>
          quits := elapsed % 4 == 0;
      }
      v := Now();
      assert if Spent(l, elapsed) then Moved(u, v, cur, l + 1) else v == u;
      if quits && tick >= 100 {
        PriorBoost();
      }
    }

    /** pick_stride; b is the slot of least pass. */
    method PickStride() returns (p: int, ghost b: nat)
      requires Ok(Now())
      modifies this`mq
      ensures PickStep(old(Now()), Now(), b, p)
      ensures Ok(Now()) && 0 <= p < NPROC
      // b has the least pass of slot 0 and the slots whose process can run, the lower slot winning a tie
      ensures b < 64 && st[b].pass <= st[0].pass && (b != 0 ==> p == st[b].proc && procs[p].state == RUNNABLE && st[b].pass < st[0].pass)
      ensures forall i :: 0 <= i < 64 && st[i].used && procs[st[i].proc].state == RUNNABLE ==>
                st[b].pass <= st[i].pass && (i < b ==> st[b].pass < st[i].pass)
      // with slot 0, something under the feedback queue runs if anything there can
      ensures b == 0 && (exists q :: 0 <= q < 64 && procs[q].sched == MLFQ && procs[q].state == RUNNABLE) ==>
                procs[p].sched == MLFQ && procs[p].state == RUNNABLE
    {
      hide Linked, Counted, Allotted, TicksOk, StrideOk, RunOk, PickStep, LeastPass, FirstRunnable, NoneRunnable, Fallback;
      ghost var s0 := Now();
      Clients(s0);
      var ret := LeastSlot();
      b := ret;
      if ret == 0 {
        ghost var l, i;
        p, l, i := PickMlfq();
        if p == -1 {
          ret := LastSearch();
          p := st[ret].proc;
          PickedLast(s0, b, ret);
        } else {
          PickKeeps(s0, Now(), l, i);
          PickedFirst(s0, Now(), l, i);
        }
      } else {
        p := st[ret].proc;
        PickedSlot(s0, b);
      }
      PickExactly(s0, Now(), b, p);
      SlotsInRange(s0);
    }

    /** Its first loop. */
    method LeastSlot() returns (ret: nat)
      requires Ok(Now())
      ensures ret < NPROC && LeastPass(Now(), ret)
    {
      hide Linked, Counted, Allotted, TicksOk;
      ghost var s0 := Now();
      Clients(s0);
      ret := 0;
      var s := 0;
      while s < NPROC
        invariant 0 <= s <= NPROC && Now() == s0
        invariant ret < NPROC && (ret != 0 ==> Competes(s0, ret) && st[ret].pass < st[0].pass) && st[ret].pass <= st[0].pass
        invariant forall i :: 0 <= i < s && Competes(s0, i) ==> st[ret].pass <= st[i].pass
        invariant forall i :: 0 <= i < ret && Competes(s0, i) ==> st[ret].pass < st[i].pass
      {
        if st[s].used && procs[st[s].proc].state == RUNNABLE {
          assert Competes(s0, s);
          if st[ret].pass > st[s].pass {
            ret := s;
          }
        }
        s := s + 1;
      }
    }

    /** Its last loop. */
    method LastSearch() returns (ret: nat)
      requires Ok(Now())
      ensures ret < NPROC && Fallback(Now(), ret)
    {
      hide Linked, Counted, Allotted, TicksOk;
      ghost var s0 := Now();
      Clients(s0);
      ret := 0;
      var minimum := PASSMAX;
      var s := 1;
      while s < NPROC
        invariant 1 <= s <= NPROC && Now() == s0 && ret < s
        invariant minimum <= PASSMAX && (ret != 0 ==> Eligible(s0, ret) && minimum == st[ret].pass)
        invariant ret == 0 ==> minimum == PASSMAX
        invariant forall k :: 0 <= k < s && Eligible(s0, k) ==> minimum <= st[k].pass && (k < ret ==> minimum < st[k].pass)
        invariant ret == 0 ==> forall k :: 0 <= k < s ==> !Eligible(s0, k)
      {
        if st[s].used && procs[st[s].proc].state == RUNNABLE {
          assert Competes(s0, s);
          if minimum > st[s].pass {
            minimum := st[s].pass;
            ret := s;
          }
        }
        s := s + 1;
      }
    }

    /** scheduler, one round: the process picked becomes the running one. */
    method Dispatch() returns (ghost b: nat)
      requires Ok(Now()) && cur == -1
      modifies this`procs, this`mq, this`cur
      ensures Ok(Now()) && 0 <= cur < NPROC
      ensures PickStep(old(Now()), Now().(procs := old(procs), cur := -1), b, cur)
      ensures procs == old(procs)[cur := old(procs)[cur].(state := RUNNING)]
      ensures Next(old(Now()), Pick(b), Now())
    {
      hide Linked, Counted, Allotted, TicksOk, StrideOk, PickStep;
      var p;
      p, b := PickStride();
      ghost var s := Now();
      NotGone(s, b, p, old(Now()));
      procs := procs[p := procs[p].(state := RUNNING)];
      cur := p;
      StatesOnly(s, Now());
    }

    /** The running process leaves the CPU: yield (RUNNABLE) and sleep (SLEEPING). */
    method Leave(state: ProcState)
      requires Ok(Now()) && 0 <= cur && state in {RUNNABLE, SLEEPING}
      modifies this`procs, this`cur
      ensures Ok(Now())
      ensures Now() == old(Now()).(procs := old(procs)[old(cur) := old(procs)[old(cur)].(state := state)], cur := -1)
      ensures Next(old(Now()), Event.Leave(state), Now())
    {
      hide Linked, Counted, Allotted, TicksOk, StrideOk;
      ghost var s := Now();
      procs := procs[cur := procs[cur].(state := state)];
      cur := -1;
      StatesOnly(s, Now());
    }

    /** wakeup1 for one sleeper. */
    method Wakeup(p: nat)
      requires Ok(Now()) && p < NPROC
      modifies this`procs
      ensures Ok(Now())
      ensures Now() == old(Now()).(procs := if old(procs)[p].state == SLEEPING then old(procs)[p := old(procs)[p].(state := RUNNABLE)]
                                            else old(procs))
      ensures old(procs)[p].state == SLEEPING ==> Next(old(Now()), Event.Wakeup(p), Now())
    {
      hide Linked, Counted, Allotted, TicksOk, StrideOk;
      ghost var s := Now();
      if procs[p].state == SLEEPING {
        procs := procs[p := procs[p].(state := RUNNABLE)];
        StatesOnly(s, Now());
      }
    }

    /** wait, for a child that has exited. */
    method Reap(p: nat)
      requires Ok(Now()) && p < NPROC && procs[p].state == ZOMBIE
      modifies this`procs
      ensures Ok(Now())
      ensures Now() == old(Now()).(procs := old(procs)[p := old(procs)[p].(state := UNUSED)])
      ensures Next(old(Now()), Event.Reap(p), Now())
    {
      hide Linked, Counted, Allotted, TicksOk, StrideOk;
      ghost var s := Now();
      procs := procs[p := procs[p].(state := UNUSED)];
      StatesOnly(s, Now());
    }

    /** fork as the scheduler sees it: allocproc finds the first free slot of ptable and pushes it at
        level 0; -1 when there is none. */
    method Fork() returns (p: int, ghost i: nat)
      requires Ok(Now())
      modifies this`procs, this`mq
      ensures Ok(Now())
      ensures p == -1 <==> forall q :: 0 <= q < NPROC ==> old(procs)[q].state != UNUSED
      ensures p == -1 ==> Now() == old(Now())
      ensures p != -1 ==>
        && 0 <= p < NPROC && old(procs)[p].state == UNUSED && (forall q :: 0 <= q < p ==> old(procs)[q].state != UNUSED)
        && i < NPROC && !old(mq)[0].table[i].used
        && procs == old(procs)[p := Proc(RUNNABLE, MLFQ, 0, 0, i)] && mq[0].table[i] == Node(true, 0, p)
      ensures p != -1 ==> Next(old(Now()), Event.Fork(p, i), Now())
    {
      hide Linked, Counted, Allotted, TicksOk, StrideOk;
      ghost var s := Now();
      i := 0;
      p := 0;
      while p < NPROC
        invariant 0 <= p <= NPROC && forall q :: 0 <= q < p ==> procs[q].state != UNUSED
      {
        if procs[p].state == UNUSED {
          break;
        }
        p := p + 1;
      }
      if p == NPROC {
        return -1, i;
      }
      procs := procs[p := procs[p].(state := RUNNABLE, pstride := 0)];
      ghost var s1 := Now();
      QueueOnly(s, s1, p);
      StrideOnly(s, s1, p);
      var r;
      r, i := PushMlfq(p, 0);
      InsertRest(s1, p, i);
    }

    /** exit of a process other than init. */
    method Exit()
      requires Ok(Now()) && 0 < cur
      modifies this`procs, this`mq, this`st, this`cur
      ensures Ok(Now()) && cur == -1
      ensures var p := old(cur); var z := old(procs)[p].(state := ZOMBIE);
              if old(procs)[p].sched == STRIDE then
                && z.pstride < NPROC && old(st)[0].tickets + old(st)[z.pstride].tickets != 0
                && Now() == Left(old(Now()), p).(procs := old(procs)[p := z.(sched := NONE)], cur := -1)
              else
                && z.level < 3 && z.index < NPROC
                && Now() == Remove(old(Now()), p).(procs := old(procs)[p := z.(sched := NONE)], cur := -1)
      ensures Next(old(Now()), Event.Exit, Now())
      // slot 0 gets the tickets of a stride client back; nothing else of the stride table changes
      ensures procs == old(procs)[old(cur) := old(procs)[old(cur)].(state := ZOMBIE, sched := NONE)]
      ensures if old(procs)[old(cur)].sched != STRIDE then st == old(st)
              else
                var e := old(procs)[old(cur)].pstride;
                mq == old(mq) && 0 < e < 64 && forall k :: 0 <= k < 64 ==>
                  st[k] == if k == e then old(st)[k].(used := false)
                           else if k == 0 then old(st)[0].(tickets := old(st)[0].tickets + old(st)[e].tickets,
                                                           stride := 1048576 / (old(st)[0].tickets + old(st)[e].tickets))
                           else old(st)[k]
    {
      hide Linked, Counted, Allotted, TicksOk, StrideOk;
      ghost var s := Now();
      var p := cur;
      if procs[p].sched == STRIDE {
        LeftStride(s, p);
        TicketsHere(s);
        var e := procs[p].pstride;
        procs := procs[p := procs[p].(sched := NONE)];
        var tickets := st[0].tickets + st[e].tickets;
        st := st[0 := st[0].(tickets := tickets, stride := STRIDE1 / tickets)];
        st := st[e := st[e].(used := false)];
        StrideOnly(s, Now(), p);
      } else {
        RemoveRest(s, p);
        var r := PopMlfq(p);
      }
      ghost var t := Now();
      procs := procs[p := procs[p].(state := ZOMBIE)];
      cur := -1;
      QueueAgain(t, Now());
    }

    /** The first loop of set_cpu_share: the tickets asked for and already sold, and the least pass. */
    method Demand(inquire: int) returns (sum: int, minPass: int)
      requires |st| == NPROC && forall i :: 0 <= i < NPROC && st[i].used ==> 0 <= st[i].pass <= PASSMAX
      ensures sum == inquire + Sum(st, SlotTickets) - SlotTickets(st[0])
      ensures 0 <= minPass <= PASSMAX && forall k :: 1 <= k < NPROC && st[k].used ==> minPass <= st[k].pass
      ensures minPass == PASSMAX || exists k :: 1 <= k < NPROC && st[k].used && minPass == st[k].pass
    {
      sum, minPass := inquire, PASSMAX;
      var i := 1;
      assert st[..1] == [st[0]];
      OneSlot(st[0]);
      while i < NPROC
        invariant 1 <= i <= NPROC
        invariant sum == inquire + Sum(st[..i], SlotTickets) - SlotTickets(st[0])
        invariant 0 <= minPass <= PASSMAX && forall k :: 1 <= k < i && st[k].used ==> minPass <= st[k].pass
        invariant minPass == PASSMAX || exists k :: 1 <= k < i && st[k].used && minPass == st[k].pass
      {
        assert st[..i + 1][..i] == st[..i];
        if st[i].used {
          sum := sum + st[i].tickets;
          if minPass > st[i].pass {
            minPass := st[i].pass;
          }
        }
        i := i + 1;
      }
      assert st[..i] == st;
    }

    /** The second loop of set_cpu_share. */
    method FirstEmpty(ghost room: nat) returns (s: nat)
      requires |st| == NPROC && room < NPROC && !st[room].used
      ensures s < NPROC && !st[s].used && forall k :: 0 <= k < s ==> st[k].used
    {
      s := 0;
      while s < NPROC
        invariant 0 <= s <= room
        invariant forall k :: 0 <= k < s ==> st[k].used
      {
        if !st[s].used {
          break;
        }
        s := s + 1;
      }
    }

    /** set_cpu_share, called by the running process; init does not call it. e is the slot it
        takes and pass the pass it starts from. */
    method SetCpuShare(inquire: int) returns (r: int, ghost e: nat, ghost pass: int)
      requires Ok(Now()) && 0 < cur
      modifies this`procs, this`mq, this`st
      ensures Ok(Now())
      ensures r == if 1 <= inquire <= 80 && old(procs)[cur].sched != STRIDE && inquire <= old(st)[0].tickets - 20 then 0 else -1
      ensures r == -1 ==> Now() == old(Now())
      ensures r == 0 ==> 1 <= e < NPROC && !old(st)[e].used && forall k :: 0 <= k < e ==> old(st)[k].used
      ensures r == 0 ==> (forall k :: 1 <= k < NPROC && old(st)[k].used ==> pass <= old(st)[k].pass) &&
                         (pass == 1000000000 || exists k :: 1 <= k < NPROC && old(st)[k].used && pass == old(st)[k].pass)
      ensures r == 0 ==> old(procs)[cur].level < 3 && old(procs)[cur].index < NPROC
      ensures r == 0 ==> Now() == Joined(Remove(old(Now()), cur), cur, e, inquire, pass)
      // the caller starts at that pass, slot 0 gives the tickets, and no other slot and no other process is touched
      ensures r == 0 ==> forall k :: 0 <= k < 64 ==>
        st[k] == if k == e then Slot(true, inquire, 1048576 / inquire, pass, cur)
                 else if k == 0 then old(st)[0].(tickets := old(st)[0].tickets - inquire, stride := 1048576 / (old(st)[0].tickets - inquire))
                 else old(st)[k]
      ensures r == 0 ==> forall q :: 0 <= q < 64 ==>
        procs[q] == if q == cur then old(procs)[q].(sched := STRIDE, pstride := e) else old(procs)[q]
      ensures r == 0 ==> Next(old(Now()), Share(inquire, e, pass), Now())
    {
      hide Linked, Counted, Allotted, TicksOk, StrideOk;
      e, pass := 0, 0;
      ghost var s0 := Now();
      TicketsHere(s0);
      Clients(s0);
      Tickets100(s0);
      if inquire <= 0 || inquire > 80 {
        return -1, e, pass;
      }
      if procs[cur].sched == STRIDE {
        return -1, e, pass;
      }
      var sum, minPass := Demand(inquire);
      if sum > 80 {
        return -1, e, pass;
      }
      CallerMlfq(s0);
      ghost var room := SomeSlot(s0, cur);
      var s := FirstEmpty(room);
      e, pass := s, minPass;
      SlotZero(s0);
      RemoveRest(s0, cur);
      r := PopMlfq(cur);
      ghost var t := Now();
      JoinedStride(t, cur, s, inquire, minPass);
      st := st[s := Slot(true, inquire, STRIDE1 / inquire, minPass, cur)];
      var left := st[0].tickets - inquire;
      st := st[0 := st[0].(tickets := left, stride := STRIDE1 / left)];
      procs := procs[cur := procs[cur].(sched := STRIDE, pstride := s)];
      StrideOnly(t, Now(), cur);
      assert Now() == Joined(t, cur, e, inquire, pass);
    }

    /** userinit: the tables are set up and init, process 0, is made runnable. */
    constructor ()
      ensures Booted(Now()) && Ok(Now()) && ticks == 0 && cur == -1
      ensures forall p :: 0 <= p < 64 ==> procs[p] == if p == 0 then Proc(RUNNABLE, MLFQ, 0, 0, 0) else Proc(UNUSED, NONE, 0, 0, 0)
      ensures forall l, i :: 0 <= l < 3 && 0 <= i < 64 ==> mq[l].table[i] == if l == 0 && i == 0 then Node(true, 0, 0) else Node(false, 0, -1)
      ensures forall i :: 0 <= i < 64 ==> st[i] == if i == 0 then Slot(true, 100, 10485, 0, 0) else Slot(false, 0, 0, 0, -1)
    {
      hide Ok;
      procs := seq(NPROC, p => if p == 0 then Proc(RUNNABLE, MLFQ, 0, 0, 0) else Proc(UNUSED, NONE, 0, 0, 0));
      var nodes := seq(NPROC, _ => EMPTY_NODE);
      mq := [Queue(nodes[0 := Node(true, 0, 0)], 1, 0), Queue(nodes, 0, 0), Queue(nodes, 0, 0)];
      st := seq(NPROC, i => if i == 0 then Slot(true, 100, STRIDE1 / 100, 0, 0) else Slot(false, 0, 0, 0, -1));
      ticks, cur := 0, -1;
      new;
      BootedOk(Now());
    }
  }

  lemma Pointers(s: S)
    requires MlfqOk(s)
    ensures forall l, i :: 0 <= l < 3 && 0 <= i < NPROC && s.mq[l].table[i].used ==> 0 <= s.mq[l].table[i].proc < NPROC
  {
  }

  /** The scan of pop_mlfq meets p nowhere before its own node. */
  lemma OnlyNode(s: S, p: nat)
    requires MlfqOk(s) && p < NPROC && s.procs[p].sched == MLFQ
    ensures forall l, i :: 0 <= l < 3 && 0 <= i < NPROC && s.mq[l].table[i].proc == p ==>
              l == s.procs[p].level && i == s.procs[p].index
  {
  }

  /** The queue invariant does not depend on schedticks, the stride table or the CPU. */
  lemma SameQueue(s: S, t: S)
    requires MlfqOk(s) && t.mq == s.mq && t.procs == s.procs && |t.st| == NPROC
    ensures MlfqOk(t)
  {
  }

  lemma SlotBounds(s: S, i: nat)
    requires Shaped(s) && StrideOk(s) && i < NPROC && s.st[i].used
    ensures 0 <= s.st[i].pass <= PASSMAX && 0 <= s.st[i].stride <= STRIDE1
  {
  }

  lemma PointerHere(s: S, p: int)
    requires MlfqOk(s) && 0 <= p < NPROC
    ensures s.procs[p].sched == MLFQ ==> s.procs[p].level < 3 && s.procs[p].index < NPROC
  {
  }

  lemma TickOkAll(s: S)
    requires Ok(s) && 0 <= s.cur
    ensures s.procs[s.cur].pstride < NPROC
    ensures forall t, quits :: TickStep(s, t, quits) ==> Ok(t)
  {
    hide Linked, Counted, Allotted, TicksOk, StrideOk;
    RunningSlot(s);
    forall t, quits | TickStep(s, t, quits) ensures Ok(t) {
      TickOk(s, t, quits);
    }
  }

  lemma TickWitness(s: S, s': S, v: S, t: S, quits: bool)
    requires Shaped(s) && 0 <= s.cur < NPROC && s.procs[s.cur].pstride < NPROC && s.procs[s.cur].sched == MLFQ
    requires s' == s.(st := Charged(s.st, s.procs[s.cur].pstride)) && QueueTick(s', v, t, quits)
    ensures TickStep(s, t, quits)
  {
  }

  lemma Clients(s: S)
    requires Ok(s)
    ensures forall i :: 0 <= i < NPROC && s.st[i].used ==> 0 <= s.st[i].proc < NPROC && 0 <= s.st[i].pass <= PASSMAX
  {
    hide MlfqOk, Allotted, TicksOk;
  }

  lemma PickedSlot(s: S, b: nat)
    requires Ok(s) && LeastPass(s, b) && b != 0
    ensures b < NPROC && PickStep(s, s, b, s.st[b].proc)
  {
  }

  lemma PickedLast(s: S, b: nat, f: nat)
    requires Ok(s) && LeastPass(s, 0) && b == 0 && NoneRunnable(s) && Fallback(s, f)
    ensures f < NPROC && PickStep(s, s, b, s.st[f].proc)
  {
  }

  lemma PickedFirst(s: S, t: S, l: nat, i: nat)
    requires Ok(s) && LeastPass(s, 0) && FirstRunnable(s, l, i) && t == s.(mq := s.mq[l := s.mq[l].(recent := i)])
    ensures PickStep(s, t, 0, s.mq[l].table[i].proc)
  {
    hide Linked, Counted;
    assert RunnableAt(s, l, i);
  }

  lemma SlotsInRange(s: S)
    requires Ok(s)
    ensures forall i :: 0 <= i < NPROC && s.st[i].used ==> 0 <= s.st[i].proc < NPROC
  {
    hide Linked, Counted;
  }

  /** A pick only moves one recent index. */
  lemma PickKeeps(s: S, t: S, l: nat, i: nat)
    requires Ok(s) && FirstRunnable(s, l, i) && t == s.(mq := s.mq[l := s.mq[l].(recent := i)])
    ensures Ok(t) && 0 <= s.mq[l].table[i].proc < NPROC
  {
    hide Counted, Allotted, TicksOk, StrideOk;
    StatesOnly(s, t);
  }

  /** Whatever is picked is not a free slot of ptable nor a zombie. */
  lemma NotGone(s: S, b: nat, p: int, s0: S)
    requires Ok(s0) && PickStep(s0, s, b, p)
    ensures 0 <= p < NPROC && s0.procs[p].sched != NONE
  {
    hide Counted, Allotted, TicksOk;
  }

  lemma TicketsHere(s: S)
    requires Shaped(s) && StrideOk(s)
    ensures s.st[0].tickets >= 20
  {
  }

  /** Run states do not matter to the tables. */
  lemma QueueAgain(s: S, t: S)
    requires MlfqOk(s) && Allotted(s) && TicksOk(s) && StrideOk(s) && t.mq == s.mq && t.st == s.st && t.ticks == s.ticks
    requires |t.procs| == NPROC && forall q :: 0 <= q < NPROC ==> t.procs[q] == s.procs[q].(state := t.procs[q].state)
    ensures MlfqOk(t) && Allotted(t) && TicksOk(t) && StrideOk(t)
  {
    SumSame(s.procs, t.procs, ProcMlfq);
    SumSame(s.procs, t.procs, ProcStride);
  }

  lemma Tickets100(s: S)
    requires Shaped(s) && StrideOk(s)
    ensures Sum(s.st, SlotTickets) == 100 && SlotTickets(s.st[0]) == s.st[0].tickets
  {
  }

  lemma OneSlot(x: Slot)
    ensures Sum([x], SlotTickets) == SlotTickets(x)
  {
    assert [x][..0] == [];
    assert Sum([x][..0], SlotTickets) == 0;
  }

  lemma CallerMlfq(s: S)
    requires Ok(s) && 0 <= s.cur && s.procs[s.cur].sched != STRIDE
    ensures s.procs[s.cur].sched == MLFQ
  {
    hide Linked, Counted, Allotted, TicksOk, StrideOk;
  }

  lemma SlotZero(s: S)
    requires Shaped(s) && StrideOk(s)
    ensures s.st[0].used
  {
  }

  /** The zero-initialised tables. */
  lemma BlankOk(s: S)
    requires Shaped(s) && s.ticks == 0 && s.cur == -1
    requires forall p :: 0 <= p < NPROC ==> s.procs[p] == Proc(UNUSED, NONE, 0, 0, 0)
    requires forall l :: 0 <= l < 3 ==> s.mq[l].count == 0 && forall i :: 0 <= i < NPROC ==> s.mq[l].table[i] == EMPTY_NODE
    requires forall i :: 0 <= i < NPROC ==> s.st[i] == Slot(false, 0, 0, 0, -1)
    ensures MlfqOk(s) && AllTicks(s) == 0
    ensures Sum(s.procs, ProcStride) == 0 && Sum(s.st, SlotTickets) == 0 && Sum(s.st, SlotUsed) == 0
  {
    forall l | 0 <= l < 3 ensures Sum(s.mq[l].table, NodeUsed) == 0 && Sum(s.mq[l].table, NodeTicks) == 0 {
      SumRange(s.mq[l].table, NodeUsed, 0, 0);
      SumRange(s.mq[l].table, NodeTicks, 0, 0);
    }
    SumRange(s.procs, ProcMlfq, 0, 0);
    SumRange(s.procs, ProcStride, 0, 0);
    SumRange(s.st, SlotTickets, 0, 0);
    SumRange(s.st, SlotUsed, 0, 0);
  }

  /** The tables as userinit leaves them: init alone, runnable, in the first node of level 0, and all tickets with slot 0. */
  ghost predicate Booted(s: S) {
    && Shaped(s) && s.ticks == 0 && s.cur == -1
    && (forall p :: 0 <= p < NPROC ==> s.procs[p] == if p == 0 then Proc(RUNNABLE, MLFQ, 0, 0, 0) else Proc(UNUSED, NONE, 0, 0, 0))
    && (forall l :: 0 <= l < 3 ==> s.mq[l].count == if l == 0 then 1 else 0)
    && (forall l, i :: 0 <= l < 3 && 0 <= i < NPROC ==> s.mq[l].table[i] == if l == 0 && i == 0 then Node(true, 0, 0) else EMPTY_NODE)
    && (forall i :: 0 <= i < NPROC ==>
          s.st[i] == if i == 0 then Slot(true, 100, STRIDE1 / 100, 0, 0) else Slot(false, 0, 0, 0, -1))
  }

  /** The same without init. */
  function Blanked(s: S): (r: S)
    requires Shaped(s)
    ensures Shaped(r)
  {
    S(s.procs[0 := Proc(UNUSED, NONE, 0, 0, 0)], s.mq[0 := Queue(s.mq[0].table[0 := EMPTY_NODE], 0, s.mq[0].recent)],
      s.st[0 := Slot(false, 0, 0, 0, -1)], 0, -1)
  }

  lemma BootedQueue(s: S)
    requires Booted(s)
    ensures var s0 := Blanked(s); var s1 := Insert(s0, 0, 0, 0);
            && MlfqOk(s1) && AllTicks(s1) == 0 && s1.mq == s.mq
            && Sum(s0.procs, ProcStride) == 0 && Sum(s0.st, SlotTickets) == 0 && Sum(s0.st, SlotUsed) == 0
  {
    hide Linked, Counted, Sum, Potential;
    var s0 := Blanked(s);
    BlankOk(s0);
    InsertOk(s0, 0, 0, 0);
    InsertTicks(s0, 0, 0, 0);
    assert Insert(s0, 0, 0, 0).mq[0] == s.mq[0];
  }

  lemma BootedOk(s: S)
    requires Booted(s)
    ensures Ok(s)
  {
    hide Ok, MlfqOk, Sum;
    BootedQueue(s);
    var s0 := Blanked(s);
    var s1 := Insert(s0, 0, 0, 0);
    SumUpdate(s0.st, 0, s.st[0], SlotTickets);
    SumUpdate(s0.st, 0, s.st[0], SlotUsed);
    assert s0.st[0 := s.st[0]] == s.st;
    SumSame(s1.procs, s.procs, ProcMlfq);
    SumSame(s0.procs, s.procs, ProcStride);
    InitialRest(s1, s);
  }

  lemma InitialRest(s1: S, s: S)
    requires MlfqOk(s1) && AllTicks(s1) == 0 && Shaped(s) && s.mq == s1.mq && s.ticks == 0 && s.cur == -1
    requires forall p :: 0 <= p < NPROC ==> s.procs[p] == if p == 0 then Proc(RUNNABLE, MLFQ, 0, 0, 0) else Proc(UNUSED, NONE, 0, 0, 0)
    requires forall p :: 0 <= p < NPROC ==> s1.procs[p] == s.procs[p].(state := UNUSED)
    requires forall l, i :: 0 <= l < 3 && 0 <= i < NPROC ==> s.mq[l].table[i].eticks == 0
    requires s.st[0] == Slot(true, 100, STRIDE1 / 100, 0, 0) && forall i :: 1 <= i < NPROC ==> !s.st[i].used
    requires Sum(s.st, SlotTickets) == 100 && Sum(s.st, SlotUsed) == 1
    requires Sum(s.procs, ProcStride) == 0 && Sum(s.procs, ProcMlfq) == Sum(s1.procs, ProcMlfq)
    ensures Ok(s)
  {
  }
}
