/** Proportional share: between joins and exits, CPU time follows the tickets. */
module Fairness {
  import opened SchedSpec

  import SchedRuns

  datatype Move =
    | Pick(b: nat)        // the scheduler dispatches, b the slot of least pass
    | Tick(quits: bool)   // a timer tick, and the yield when add_tick asks for it
    | Leave               // the running process yields or sleeps of its own accord
    | Other               // anything that leaves the stride table and the running process's node alone

  /** Every stride client can run. With lo == 0 so can something under the feedback queue, and all slots share the CPU;
      with lo == 1 nothing under it can, and the clients share, as long as pick_stride can see one. */
  ghost predicate Busy(s: S, lo: nat)
    requires Shaped(s)
  {
    && (forall i :: 1 <= i < NPROC && s.st[i].used ==> Competes(s, i))
    && if lo == 0 then !NoneRunnable(s) else NoneRunnable(s) && exists i :: 0 <= i < NPROC && Eligible(s, i)
  }

  function SlotOf(s: S): nat
    requires Shaped(s) && 0 <= s.cur < NPROC
  {
    s.procs[s.cur].pstride
  }

  /** Ticks since the last quantum boundary of the running process. */
  function Into(s: S): nat
    requires Shaped(s) && 0 <= s.cur < NPROC
  {
    var p := s.procs[s.cur];
    if p.sched == MLFQ && p.level < 3 && p.index < NPROC then
      if p.level == 1 then NodeOf(s, s.cur).eticks % 2 else if p.level == 2 then NodeOf(s, s.cur).eticks % 4 else 0
    else 0
  }

  ghost predicate Advances(s: S, m: Move, t: S, lo: nat)
    requires Ok(s) && Ok(t)
  {
    match m
    case Pick(b) =>
      s.cur == -1 && 0 <= t.cur && Busy(s, lo) && t.st == s.st &&
      PickStep(s, t.(procs := s.procs, cur := -1), b, t.cur) && t.procs == s.procs[t.cur := s.procs[t.cur].(state := RUNNING)]
    case Tick(quits) =>
      0 <= s.cur && SlotOf(s) < NPROC &&
      exists u :: Shaped(u) && TickStep(s, u, quits) && t.st == u.st &&
                  (if quits then t.cur == -1 else t == u)
    case Leave => 0 <= s.cur && t.cur == -1 && t.st == s.st
    case Other => t.st == s.st && t.cur == s.cur && (0 <= s.cur ==> SlotOf(t) == SlotOf(s) && Into(t) == Into(s))
  }

  /** A window of a run. */
  ghost predicate Window(ss: seq<S>, ms: seq<Move>, lo: nat) {
    && |ss| == |ms| + 1
    && (forall k :: 0 <= k < |ss| ==> Ok(ss[k]))
    && (forall k :: 0 <= k < |ms| ==> Advances(ss[k], ms[k], ss[k + 1], lo))
  }

  /** The tick resets the passes. */
  predicate Resets(s: S, m: Move)
    requires Shaped(s)
  {
    m.Tick? && 0 <= s.cur < NPROC && SlotOf(s) < NPROC && s.st[SlotOf(s)].pass + s.st[SlotOf(s)].stride > 1000000000
  }

  /** The tick is charged to slot i. */
  predicate Charges(s: S, m: Move, i: nat)
    requires Shaped(s)
  {
    m.Tick? && 0 <= s.cur < NPROC && SlotOf(s) == i
  }

  /** max bounds every stride. */
  ghost predicate Bounded(s: S, max: int)
    requires Shaped(s)
  {
    forall i :: 0 <= i < NPROC && s.st[i].used ==> 0 <= s.st[i].stride <= max
  }

  /** The passes of the slots that share the CPU differ by at most d. */
  ghost predicate Within(s: S, d: int, lo: nat)
    requires Shaped(s)
  {
    forall i, j :: lo <= i < NPROC && lo <= j < NPROC && s.st[i].used && s.st[j].used ==> s.st[i].pass - s.st[j].pass <= d
  }

  /** n ticks into a burst that began when slot c had the least pass, base. */
  ghost predicate Burst(s: S, c: nat, base: int, n: nat, max: int, lo: nat)
    requires Shaped(s) && c < NPROC
  {
    && s.st[c].pass == base + n * s.st[c].stride
    && forall j :: lo <= j < NPROC && s.st[j].used && j != c ==> base <= s.st[j].pass <= base + 4 * max
  }

  ghost predicate Balanced(s: S, max: int, lo: nat)
    requires Shaped(s)
  {
    && Bounded(s, max)
    && if s.cur < 0 then Within(s, 4 * max, lo)
       else s.cur < NPROC && lo <= SlotOf(s) < NPROC && s.st[SlotOf(s)].used &&
            exists base, n: nat :: n <= Into(s) && Burst(s, SlotOf(s), base, n, max, lo)
  }

  lemma Times(n: nat, a: int, max: int)
    requires n <= 4 && 0 <= a <= max
    ensures 0 <= n * a <= 4 * max
  {
  }

  lemma BurstWithin(s: S, c: nat, base: int, n: nat, max: int, lo: nat)
    requires Shaped(s) && lo <= c < NPROC && s.st[c].used && Bounded(s, max) && Burst(s, c, base, n, max, lo) && n <= 4
    ensures Within(s, 4 * max, lo)
  {
    Times(n, s.st[c].stride, max);
  }

  /** At every moment the passes differ by at most 4 * max. */
  lemma BalancedWithin(s: S, max: int, lo: nat)
    requires Shaped(s) && Balanced(s, max, lo)
    ensures Within(s, 4 * max, lo)
  {
    if s.cur >= 0 {
      var base, n: nat :| n <= Into(s) && Burst(s, SlotOf(s), base, n, max, lo);
      BurstWithin(s, SlotOf(s), base, n, max, lo);
    }
  }

  lemma OkShaped(s: S)
    requires Ok(s)
    ensures Shaped(s) && StrideOk(s) && -1 <= s.cur < NPROC
  {
  }

  /** The process picked charges the slot of least pass among those that share the CPU. */
  lemma PickSlot(s: S, b: nat, t: S, lo: nat) returns (c: nat)
    requires Ok(s) && Ok(t) && Advances(s, Move.Pick(b), t, lo) && lo <= 1
    ensures lo <= c < NPROC && s.st[c].used && t.cur < NPROC && SlotOf(t) == c
    ensures forall j :: lo <= j < NPROC && s.st[j].used ==> s.st[c].pass <= s.st[j].pass
    ensures s.cur == -1 && 0 <= t.cur && t.st == s.st
  {
    hide Counted, Allotted, TicksOk;
    assert forall j :: 1 <= j < NPROC && s.st[j].used ==> Competes(s, j);
    c := SlotOf(t);
    if lo == 1 && b == 0 { PickClient(s, t.(procs := s.procs, cur := -1), b, t.cur); }
  }

  /** With nothing to run under the feedback queue the last search picks among the clients. */
  lemma PickClient(s: S, t: S, b: nat, p: int)
    requires Ok(s) && PickStep(s, t, b, p) && Busy(s, 1) && b == 0
    ensures 0 <= p < NPROC && 1 <= s.procs[p].pstride < NPROC && s.st[s.procs[p].pstride].used
    ensures forall j :: 1 <= j < NPROC && s.st[j].used ==> s.st[s.procs[p].pstride].pass <= s.st[j].pass
  {
    hide Linked, Counted, Allotted, TicksOk;
    PickProc(s, t, b, p);
    var f := s.procs[p].pstride;
    forall j | 1 <= j < NPROC && s.st[j].used ensures s.st[f].pass <= s.st[j].pass {
      assert Competes(s, j) && (Eligible(s, j) || s.st[j].pass == PASSMAX);
    }
  }

  lemma PickBalanced(s: S, b: nat, t: S, max: int, lo: nat)
    requires Ok(s) && Ok(t) && Advances(s, Move.Pick(b), t, lo) && Balanced(s, max, lo) && lo <= 1
    ensures Balanced(t, max, lo)
  {
    hide Ok, Advances, StrideOk, Into;
    OkShaped(s);
    OkShaped(t);
    var c := PickSlot(s, b, t, lo);
    assert Burst(t, c, s.st[c].pass, 0, max, lo);
  }

  /** What a tick does to the slot and the node of the running process. */
  lemma TickEffect(s: S, t: S, quits: bool)
    requires Ok(s) && Shaped(t) && 0 <= s.cur && SlotOf(s) < NPROC && TickStep(s, t, quits)
    ensures s.st[SlotOf(s)].used
    ensures var c := SlotOf(s);
            var pass := s.st[c].pass + s.st[c].stride;
            && (pass <= 1000000000 ==> t.st == s.st[c := s.st[c].(pass := pass)])
            && (pass > 1000000000 ==> forall j :: 0 <= j < NPROC ==> t.st[j] == if s.st[j].used then s.st[j].(pass := 0) else s.st[j])
    ensures Into(s) <= 3
    ensures !quits ==> t.cur == s.cur && SlotOf(t) == SlotOf(s) && Into(t) == Into(s) + 1
  {
    hide Linked, Counted, Allotted, TicksOk, StrideOk, QueueTick, Charged;
    PointerOk'(s);
    RunningSlot(s);
    ChargedExactly(s.st, SlotOf(s));
    if s.procs[s.cur].sched == MLFQ {
      var s' := s.(st := Charged(s.st, s.procs[s.cur].pstride));
      var v :| QueueTick(s', v, t, quits);
      TickTables(s', v, t, quits);
      if !quits {
        EticksBelow(s, s.cur);
        QuietTick(s', v, t);
        IntoCharge(s');
      }
    }
  }

  /** A tick that does not end a quantum only charges the node. */
  lemma QuietTick(s: S, v: S, t: S)
    requires Shaped(s) && 0 <= s.cur < NPROC && QueueTick(s, v, t, false)
    requires s.procs[s.cur].level == 1 ==> NodeOf(s, s.cur).eticks < 10
    ensures t == Charge(s, s.cur) && !QuantumEnd(s.procs[s.cur].level, NodeOf(s, s.cur).eticks + 1)
  {
    hide Moved, Boosted, Charge;
  }

  lemma IntoCharge(s: S)
    requires Shaped(s) && 0 <= s.cur < NPROC && s.procs[s.cur].sched == MLFQ
    requires s.procs[s.cur].level < 3 && s.procs[s.cur].index < NPROC
    requires !QuantumEnd(s.procs[s.cur].level, NodeOf(s, s.cur).eticks + 1)
    ensures var t := Charge(s, s.cur); t.cur == s.cur && SlotOf(t) == SlotOf(s) && Into(t) == Into(s) + 1
  {
    hide QuantumEnd;
    var e := NodeOf(s, s.cur).eticks;
    assert NodeOf(Charge(s, s.cur), s.cur).eticks == e + 1;
    MidQuantum(s.procs[s.cur].level, e);
  }

  lemma MidQuantum(l: nat, e: nat)
    requires l < 3 && !QuantumEnd(l, e + 1)
    ensures l != 0 && (l == 1 ==> (e + 1) % 2 == e % 2 + 1) && (l == 2 ==> (e + 1) % 4 == e % 4 + 1)
  {
  }

  lemma PointerOk'(s: S)
    requires Ok(s) && 0 <= s.cur
    ensures s.procs[s.cur].sched == MLFQ ==> s.procs[s.cur].level < 3 && s.procs[s.cur].index < NPROC
  {
  }

  lemma TickTables(s: S, v: S, t: S, quits: bool)
    requires Shaped(s) && 0 <= s.cur < NPROC && QueueTick(s, v, t, quits)
    ensures t.st == s.st && t.cur == s.cur
  {
  }

  /** A reset leaves all passes equal. */
  lemma ResetEven(s: S, m: Move, t: S, lo: nat)
    requires Ok(s) && Ok(t) && Advances(s, m, t, lo) && Resets(s, m)
    ensures Within(t, 0, 0) && forall i :: 0 <= i < NPROC && t.st[i].used ==> t.st[i].pass == 0
  {
    hide Linked, Counted, Allotted, TicksOk, StrideOk, TickStep;
    var u :| Shaped(u) && TickStep(s, u, m.quits) && t.st == u.st && (if m.quits then t.cur == -1 else t == u);
    TickEffect(s, u, m.quits);
  }

  lemma TickBalanced(s: S, t: S, quits: bool, max: int, lo: nat)
    requires Ok(s) && Ok(t) && Advances(s, Move.Tick(quits), t, lo) && Balanced(s, max, lo)
    ensures Balanced(t, max, lo)
  {
    hide Linked, Counted, Allotted, TicksOk, StrideOk, TickStep, Into;
    var u :| Shaped(u) && TickStep(s, u, quits) && t.st == u.st && (if quits then t.cur == -1 else t == u);
    TickEffect(s, u, quits);
    var c := SlotOf(s);
    var base, n: nat :| n <= Into(s) && Burst(s, c, base, n, max, lo);
    if Resets(s, Move.Tick(quits)) {
      assert Burst(t, c, 0, 0, max, lo);
    } else {
      assert (n + 1) * s.st[c].stride == n * s.st[c].stride + s.st[c].stride;
      assert Burst(t, c, base, n + 1, max, lo);
      if quits {
        BurstWithin(t, c, base, n + 1, max, lo);
      }
    }
  }

  lemma StepBalanced(s: S, m: Move, t: S, max: int, lo: nat)
    requires Ok(s) && Ok(t) && Advances(s, m, t, lo) && Balanced(s, max, lo) && lo <= 1
    ensures Balanced(t, max, lo)
  {
    match m
    case Pick(b) => PickBalanced(s, b, t, max, lo);
    case Tick(quits) => TickBalanced(s, t, quits, max, lo);
    case Leave =>
      BalancedWithin(s, max, lo);
    case Other => OtherBalanced(s, t, max, lo);
  }

  lemma OtherBalanced(s: S, t: S, max: int, lo: nat)
    requires Ok(s) && Ok(t) && Advances(s, Move.Other, t, lo) && Balanced(s, max, lo)
    ensures Balanced(t, max, lo)
  {
    hide Linked, Counted, Allotted, TicksOk, StrideOk, Into;
    if 0 <= s.cur {
      var base, n: nat :| n <= Into(s) && Burst(s, SlotOf(s), base, n, max, lo);
      assert Burst(t, SlotOf(t), base, n, max, lo);
    }
  }

  lemma {:induction false} WindowBalanced(ss: seq<S>, ms: seq<Move>, max: int, lo: nat, k: nat)
    requires Window(ss, ms, lo) && k <= |ms| && lo <= 1 && Shaped(ss[0]) && Balanced(ss[0], max, lo)
    ensures Shaped(ss[k]) && Balanced(ss[k], max, lo)
  {
    hide Ok, Advances, Balanced;
    OkShaped(ss[k]);
    if k > 0 {
      WindowBalanced(ss, ms, max, lo, k - 1);
      StepBalanced(ss[k - 1], ms[k - 1], ss[k], max, lo);
    }
  }

  /* ---------- Tick counts ---------- */

  /** The ticks charged to slot i in the first k moves of a window. */
  ghost function Count(ss: seq<S>, ms: seq<Move>, lo: nat, i: nat, k: nat): nat
    requires Window(ss, ms, lo) && k <= |ms|
  {
    if k == 0 then 0
    else
      OkShaped(ss[k - 1]);
      Count(ss, ms, lo, i, k - 1) + (if Charges(ss[k - 1], ms[k - 1], i) then 1 else 0)
  }

  /** The resets in the first k moves. */
  ghost function ResetCount(ss: seq<S>, ms: seq<Move>, lo: nat, k: nat): nat
    requires Window(ss, ms, lo) && k <= |ms|
  {
    if k == 0 then 0
    else
      OkShaped(ss[k - 1]);
      ResetCount(ss, ms, lo, k - 1) + (if Resets(ss[k - 1], ms[k - 1]) then 1 else 0)
  }

  /** A move changes no slot but for the pass of the one that a tick charges, unless it resets them. */
  lemma StepPass(s: S, m: Move, t: S, lo: nat, i: nat)
    requires Ok(s) && Ok(t) && Advances(s, m, t, lo) && i < NPROC
    ensures t.st[i].used == s.st[i].used && t.st[i].stride == s.st[i].stride
    ensures !Resets(s, m) ==> t.st[i].pass == s.st[i].pass + if Charges(s, m, i) then s.st[i].stride else 0
    ensures Resets(s, m) && s.st[i].used ==> t.st[i].pass == 0
  {
    hide Linked, Counted, Allotted, TicksOk, StrideOk, TickStep;
    if m.Tick? {
      var u :| Shaped(u) && TickStep(s, u, m.quits) && t.st == u.st && (if m.quits then t.cur == -1 else t == u);
      TickEffect(s, u, m.quits);
    }
  }

  /** What the passes would be at a reset differs by no more than at any other moment. */
  lemma BeforeReset(s: S, m: Move, t: S, max: int, lo: nat, i: nat, j: nat)
    requires Ok(s) && Ok(t) && Advances(s, m, t, lo) && Resets(s, m) && Balanced(s, max, lo)
    requires lo <= i < NPROC && lo <= j < NPROC && s.st[i].used && s.st[j].used
    ensures var x, y := s.st[i].pass + (if Charges(s, m, i) then s.st[i].stride else 0), s.st[j].pass + (if Charges(s, m, j) then s.st[j].stride else 0);
            -4 * max <= x - y <= 4 * max
  {
    hide Linked, Counted, Allotted, TicksOk, StrideOk, TickStep, Into;
    var u :| Shaped(u) && TickStep(s, u, m.quits) && t.st == u.st && (if m.quits then t.cur == -1 else t == u);
    TickEffect(s, u, m.quits);
    var c := SlotOf(s);
    var base, n: nat :| n <= Into(s) && Burst(s, c, base, n, max, lo);
    assert (n + 1) * s.st[c].stride == n * s.st[c].stride + s.st[c].stride;
    Times(n + 1, s.st[c].stride, max);
  }

  lemma OneMore(n: int, c: bool, a: int)
    ensures (n + if c then 1 else 0) * a == n * a + if c then a else 0
  {
  }

  lemma {:induction false} SameSlots(ss: seq<S>, ms: seq<Move>, lo: nat, i: nat, k: nat)
    requires Window(ss, ms, lo) && k <= |ms| && i < NPROC
    ensures Shaped(ss[0]) && Shaped(ss[k])
    ensures ss[k].st[i].used == ss[0].st[i].used && ss[k].st[i].stride == ss[0].st[i].stride
  {
    hide Ok, Advances;
    OkShaped(ss[0]);
    OkShaped(ss[k]);
    if k > 0 {
      SameSlots(ss, ms, lo, i, k - 1);
      StepPass(ss[k - 1], ms[k - 1], ss[k], lo, i);
    }
  }

  lemma CountNone(ss: seq<S>, ms: seq<Move>, lo: nat, i: nat)
    requires Window(ss, ms, lo)
    ensures Count(ss, ms, lo, i, 0) == 0 && ResetCount(ss, ms, lo, 0) == 0
  {
  }

  lemma CountStep(ss: seq<S>, ms: seq<Move>, lo: nat, i: nat, k: nat)
    requires Window(ss, ms, lo) && 0 < k <= |ms|
    ensures Shaped(ss[k - 1])
    ensures Count(ss, ms, lo, i, k) == Count(ss, ms, lo, i, k - 1) + if Charges(ss[k - 1], ms[k - 1], i) then 1 else 0
    ensures ResetCount(ss, ms, lo, k) == ResetCount(ss, ms, lo, k - 1) + if Resets(ss[k - 1], ms[k - 1]) then 1 else 0
  {
    hide Ok, Advances;
    OkShaped(ss[k - 1]);
  }

  /** Until the passes are first reset, that of a slot grows by its stride once per tick. */
  lemma {:induction false} PassCount(ss: seq<S>, ms: seq<Move>, lo: nat, i: nat, k: nat)
    requires Window(ss, ms, lo) && k <= |ms| && i < NPROC && ResetCount(ss, ms, lo, k) == 0
    ensures Shaped(ss[0]) && Shaped(ss[k])
    ensures ss[k].st[i].pass == ss[0].st[i].pass + Count(ss, ms, lo, i, k) * ss[0].st[i].stride
  {
    hide Ok, Advances, Count, ResetCount;
    SameSlots(ss, ms, lo, i, k);
    if k == 0 {
      CountNone(ss, ms, lo, i);
    } else {
      CountStep(ss, ms, lo, i, k);
      PassCount(ss, ms, lo, i, k - 1);
      SameSlots(ss, ms, lo, i, k - 1);
      StepPass(ss[k - 1], ms[k - 1], ss[k], lo, i);
      OneMore(Count(ss, ms, lo, i, k - 1), Charges(ss[k - 1], ms[k - 1], i), ss[0].st[i].stride);
    }
  }

  /** From moment a on the weights of the ticks differ as the passes do, but for at most 4 * max at each reset. */
  lemma {:induction false} ShareFrom(ss: seq<S>, ms: seq<Move>, max: int, lo: nat, i: nat, j: nat, a: nat, k: nat)
    requires Window(ss, ms, lo) && a <= k <= |ms| && lo <= 1 && lo <= i < NPROC && lo <= j < NPROC
    requires Shaped(ss[0]) && Balanced(ss[0], max, lo) && ss[0].st[i].used && ss[0].st[j].used
    ensures Shaped(ss[a]) && Shaped(ss[k])
    ensures var n, m := Count(ss, ms, lo, i, k) - Count(ss, ms, lo, i, a), Count(ss, ms, lo, j, k) - Count(ss, ms, lo, j, a);
            var r := ResetCount(ss, ms, lo, k) - ResetCount(ss, ms, lo, a);
            var d := n * ss[0].st[i].stride - m * ss[0].st[j].stride - (ss[k].st[i].pass - ss[k].st[j].pass) + (ss[a].st[i].pass - ss[a].st[j].pass);
            r >= 0 && -(4 * max * r) <= d <= 4 * max * r
  {
    hide Ok, Advances, Count, ResetCount, Balanced, Charges, Resets;
    SameSlots(ss, ms, lo, i, a);
    SameSlots(ss, ms, lo, i, k);
    if a < k {
      ShareFrom(ss, ms, max, lo, i, j, a, k - 1);
      SameSlots(ss, ms, lo, i, k - 1);
      SameSlots(ss, ms, lo, j, k - 1);
      WindowBalanced(ss, ms, max, lo, k - 1);
      CountStep(ss, ms, lo, i, k);
      CountStep(ss, ms, lo, j, k);
      ghost var ni, nj, r := Count(ss, ms, lo, i, k - 1) - Count(ss, ms, lo, i, a), Count(ss, ms, lo, j, k - 1) - Count(ss, ms, lo, j, a),
                             ResetCount(ss, ms, lo, k - 1) - ResetCount(ss, ms, lo, a);
      ShareStep(ss[k - 1], ms[k - 1], ss[k], max, lo, i, j, ni, nj, r, ss[0].st[i].stride, ss[0].st[j].stride, ss[a].st[i].pass - ss[a].st[j].pass,
                Count(ss, ms, lo, i, k) - Count(ss, ms, lo, i, a), Count(ss, ms, lo, j, k) - Count(ss, ms, lo, j, a),
                ResetCount(ss, ms, lo, k) - ResetCount(ss, ms, lo, a));
    }
  }

  /** One move of that: ni, nj and r are the counts before it. */
  lemma ShareStep(s: S, m: Move, t: S, max: int, lo: nat, i: nat, j: nat, ni: int, nj: int, r: int, si: int, sj: int, d: int,
                  ni': int, nj': int, r': int)
    requires Ok(s) && Ok(t) && Advances(s, m, t, lo) && Balanced(s, max, lo) && lo <= i < NPROC && lo <= j < NPROC
    requires s.st[i].used && s.st[j].used && s.st[i].stride == si && s.st[j].stride == sj
    requires ni' == ni + (if Charges(s, m, i) then 1 else 0) && nj' == nj + (if Charges(s, m, j) then 1 else 0)
    requires r >= 0 && r' == r + if Resets(s, m) then 1 else 0
    requires -(4 * max * r) <= ni * si - nj * sj - (s.st[i].pass - s.st[j].pass) + d <= 4 * max * r
    ensures r' >= 0 && -(4 * max * r') <= ni' * si - nj' * sj - (t.st[i].pass - t.st[j].pass) + d <= 4 * max * r'
  {
    hide Ok, StrideOk, Advances, Balanced, Charges, Resets;
    OkShaped(s);
    OkShaped(t);
    StepPass(s, m, t, lo, i);
    StepPass(s, m, t, lo, j);
    if Resets(s, m) {
      BeforeReset(s, m, t, max, lo, i, j);
    }
    Weighed(s.st[i].pass, s.st[j].pass, t.st[i].pass, t.st[j].pass, max, Charges(s, m, i), Charges(s, m, j), Resets(s, m),
            ni, nj, r, si, sj, d, ni', nj', r');
  }

  /** The same for the passes p and q of two slots, and p' and q' afterwards. */
  lemma Weighed(p: int, q: int, p': int, q': int, max: int, ci: bool, cj: bool, reset: bool,
                ni: int, nj: int, r: int, si: int, sj: int, d: int, ni': int, nj': int, r': int)
    requires ni' == ni + (if ci then 1 else 0) && nj' == nj + (if cj then 1 else 0) && r' == r + if reset then 1 else 0
    requires !reset ==> p' == p + (if ci then si else 0) && q' == q + (if cj then sj else 0)
    requires reset ==> p' == q' && -(4 * max) <= (p + if ci then si else 0) - (q + if cj then sj else 0) <= 4 * max
    requires -(4 * max * r) <= ni * si - nj * sj - (p - q) + d <= 4 * max * r
    ensures -(4 * max * r') <= ni' * si - nj' * sj - (p' - q') + d <= 4 * max * r'
  {
    var x, y, b, x', y', b' := ni * si, nj * sj, 4 * max * r, ni' * si, nj' * sj, 4 * max * r';
    assert x' == x + (if ci then si else 0) by { OneMore(ni, ci, si); }
    assert y' == y + (if cj then sj else 0) by { OneMore(nj, cj, sj); }
    assert b' == b + (if reset then 4 * max else 0) by { OneMore(r, reset, 4 * max); }
    Drift(x, y, b, si, sj, p, q, p', q', d, ci, cj, reset, 4 * max, x', y', b');
  }

  /** The same without products: x and y are the weights, p and q the passes. */
  lemma Drift(x: int, y: int, b: int, si: int, sj: int, p: int, q: int, p': int, q': int, d: int, ci: bool, cj: bool, reset: bool, c: int,
              x': int, y': int, b': int)
    requires -b <= x - y - (p - q) + d <= b
    requires x' == x + (if ci then si else 0) && y' == y + (if cj then sj else 0) && b' == b + if reset then c else 0
    requires !reset ==> p' == p + (if ci then si else 0) && q' == q + (if cj then sj else 0)
    requires reset ==> p' == q' && -c <= (p + if ci then si else 0) - (q + if cj then sj else 0) <= c
    ensures -b' <= x' - y' - (p' - q') + d <= b'
  {
  }

  /** Proportional share: in a window that starts balanced (with nothing running and passes no further apart than
      4 * max, say) any two slots that share the CPU receive it in proportion to their tickets between any two moments a
      and k: n ticks weigh n * stride, and the weights differ by at most 8 * max, and 4 * max more for each reset in
      between, max being the largest stride. */
  lemma ProportionalShare(ss: seq<S>, ms: seq<Move>, max: int, lo: nat, i: nat, j: nat, a: nat, k: nat)
    requires Window(ss, ms, lo) && a <= k <= |ms| && lo <= 1 && lo <= i < NPROC && lo <= j < NPROC
    requires Shaped(ss[0]) && Balanced(ss[0], max, lo) && ss[0].st[i].used && ss[0].st[j].used
    ensures var n, m := Count(ss, ms, lo, i, k) - Count(ss, ms, lo, i, a), Count(ss, ms, lo, j, k) - Count(ss, ms, lo, j, a);
            var r := ResetCount(ss, ms, lo, k) - ResetCount(ss, ms, lo, a);
            -(8 + 4 * r) * max <= n * ss[0].st[i].stride - m * ss[0].st[j].stride <= (8 + 4 * r) * max
    ensures Shaped(ss[k]) && Within(ss[k], 4 * max, lo)
  {
    hide Ok, Advances, Count, ResetCount, Balanced;
    forall x | x in {a, k} ensures Shaped(ss[x]) && Within(ss[x], 4 * max, lo) {
      WindowBalanced(ss, ms, max, lo, x);
      BalancedWithin(ss[x], max, lo);
      SameSlots(ss, ms, lo, i, x);
      SameSlots(ss, ms, lo, j, x);
    }
    SameSlots(ss, ms, lo, i, a);
    SameSlots(ss, ms, lo, i, k);
    SameSlots(ss, ms, lo, j, a);
    SameSlots(ss, ms, lo, j, k);
    ShareFrom(ss, ms, max, lo, i, j, a, k);
    var r := ResetCount(ss, ms, lo, k) - ResetCount(ss, ms, lo, a);
    assert (8 + 4 * r) * max == 8 * max + 4 * max * r;
  }

  /* ---------- The same in a run ---------- */

  /** From moment a to moment z of a run nobody joins or exits, every client can run whenever the scheduler picks, the
      feedback queue has something to run (lo == 0) or has not (lo == 1) each time, and a tick that asks for a yield
      gets it. */
  ghost predicate Steady(ss: seq<S>, evs: seq<Event>, lo: nat, a: nat, z: nat)
    requires SchedRuns.Run(ss, evs)
  {
    a <= z <= |evs| && forall k :: a <= k < z ==> SteadyAt(ss, evs, lo, k, z)
  }

  ghost predicate SteadyAt(ss: seq<S>, evs: seq<Event>, lo: nat, k: nat, z: nat)
    requires SchedRuns.Run(ss, evs) && k < z <= |evs|
  {
    && !evs[k].Share? && !evs[k].Exit?
    && (evs[k].Pick? ==> Busy(ss[k], lo))
    && (evs[k] == Event.Tick(true) ==> k + 1 < z && evs[k + 1].Leave?)
  }

  /** The ticks charged to slot i from moment a to moment z. */
  ghost function Ticks(ss: seq<S>, evs: seq<Event>, i: nat, a: nat, z: nat): nat
    requires SchedRuns.Run(ss, evs) && a <= z <= |evs|
    decreases z - a
  {
    if a == z then 0
    else (if evs[a].Tick? && 0 <= ss[a].cur < NPROC && ss[a].procs[ss[a].cur].pstride == i then 1 else 0) + Ticks(ss, evs, i, a + 1, z)
  }

  /** How often the passes are reset meanwhile. */
  ghost function RunResets(ss: seq<S>, evs: seq<Event>, a: nat, z: nat): nat
    requires SchedRuns.Run(ss, evs) && a <= z <= |evs|
    decreases z - a
  {
    if a == z then 0 else (if Resets(ss[a], AsMove(evs[a])) then 1 else 0) + RunResets(ss, evs, a + 1, z)
  }

  /** An event as a move, but for a tick that ends a quantum. */
  function AsMove(ev: Event): Move {
    match ev
    case Pick(b) => Move.Pick(b)
    case Tick(quits) => Move.Tick(quits)
    case Leave(_) => Move.Leave
    case _ => Move.Other
  }

  lemma ForkMove(s: S, p: nat, i: nat, t: S, lo: nat)
    requires Ok(s) && Ok(t) && Next(s, Event.Fork(p, i), t)
    ensures Advances(s, Move.Other, t, lo)
  {
    hide Counted, Allotted, TicksOk, StrideOk;
  }

  lemma OneMove(s: S, ev: Event, t: S, lo: nat)
    requires Ok(s) && Ok(t) && Next(s, ev, t) && !ev.Share? && !ev.Exit? && ev != Event.Tick(true)
    requires ev.Pick? ==> Busy(s, lo)
    ensures Advances(s, AsMove(ev), t, lo)
  {
    hide Linked, Counted, Allotted, TicksOk, StrideOk, TickStep;
    match ev
    case Fork(p, i) => ForkMove(s, p, i, t, lo);
    case _ =>
  }

  lemma QuitMove(s: S, u: S, ev: Event, t: S, lo: nat)
    requires Ok(s) && Ok(u) && Ok(t) && Next(s, Event.Tick(true), u) && ev.Leave? && Next(u, ev, t)
    ensures Advances(s, Move.Tick(true), t, lo)
  {
    hide Linked, Counted, Allotted, TicksOk, StrideOk, TickStep;
  }

  /** One move more at the end of a window. */
  lemma WindowMore(ws: seq<S>, ms: seq<Move>, lo: nat, m: Move, t: S)
    requires Window(ws, ms, lo) && Ok(t) && Advances(ws[|ms|], m, t, lo)
    ensures Window(ws + [t], ms + [m], lo) && Shaped(ws[|ms|])
    ensures forall i: nat :: Count(ws + [t], ms + [m], lo, i, |ms| + 1) ==
              Count(ws, ms, lo, i, |ms|) + if Charges(ws[|ms|], m, i) then 1 else 0
    ensures ResetCount(ws + [t], ms + [m], lo, |ms| + 1) == ResetCount(ws, ms, lo, |ms|) + if Resets(ws[|ms|], m) then 1 else 0
  {
    hide Ok, Advances;
    OkShaped(ws[|ms|]);
    forall i: nat ensures Count(ws + [t], ms + [m], lo, i, |ms|) == Count(ws, ms, lo, i, |ms|) {
      CountPrefix(ws, ms, ws + [t], ms + [m], lo, i, |ms|);
    }
    CountPrefix(ws, ms, ws + [t], ms + [m], lo, 0, |ms|);
  }

  lemma {:induction false} CountPrefix(ws: seq<S>, ms: seq<Move>, ws': seq<S>, ms': seq<Move>, lo: nat, i: nat, k: nat)
    requires Window(ws, ms, lo) && Window(ws', ms', lo) && ws <= ws' && ms <= ms' && k <= |ms|
    ensures Count(ws', ms', lo, i, k) == Count(ws, ms, lo, i, k) && ResetCount(ws', ms', lo, k) == ResetCount(ws, ms, lo, k)
  {
    hide Ok, Advances;
    if k > 0 { CountPrefix(ws, ms, ws', ms', lo, i, k - 1); }
  }

  /** Such a part of a run is a window, with a tick that ends a quantum and the yield it asks for as one move. */
  lemma {:induction false} Projects(ss: seq<S>, evs: seq<Event>, lo: nat, a: nat, z: nat, ws: seq<S>, ms: seq<Move>)
    returns (ws': seq<S>, ms': seq<Move>)
    requires SchedRuns.Run(ss, evs) && Steady(ss, evs, lo, a, z) && Window(ws, ms, lo) && ws[|ms|] == ss[a]
    ensures Window(ws', ms', lo) && ws <= ws' && ms <= ms' && ws'[|ms'|] == ss[z]
    ensures forall i: nat :: Count(ws', ms', lo, i, |ms'|) == Count(ws, ms, lo, i, |ms|) + Ticks(ss, evs, i, a, z)
    ensures ResetCount(ws', ms', lo, |ms'|) == ResetCount(ws, ms, lo, |ms|) + RunResets(ss, evs, a, z)
    decreases z - a
  {
    hide Ok, Advances, Next, Busy;
    ws', ms' := ws, ms;
    if a < z {
      assert SteadyAt(ss, evs, lo, a, z);
      SchedRuns.RunKeepsOk(ss, evs, a);
      SchedRuns.RunKeepsOk(ss, evs, a + 1);
      if evs[a] == Event.Tick(true) {
        SchedRuns.RunKeepsOk(ss, evs, a + 2);
        QuitMove(ss[a], ss[a + 1], evs[a + 1], ss[a + 2], lo);
        WindowMore(ws, ms, lo, Move.Tick(true), ss[a + 2]);
        ws', ms' := Projects(ss, evs, lo, a + 2, z, ws + [ss[a + 2]], ms + [Move.Tick(true)]);
      } else {
        OneMove(ss[a], evs[a], ss[a + 1], lo);
        WindowMore(ws, ms, lo, AsMove(evs[a]), ss[a + 1]);
        ws', ms' := Projects(ss, evs, lo, a + 1, z, ws + [ss[a + 1]], ms + [AsMove(evs[a])]);
      }
    }
  }

  /** Proportional share in any such part of any run that starts with nothing running and passes no further apart
      than 4 * max: between any two moments k and z of it the ticks of any two slots that share the CPU weigh the same,
      within 8 * max and 4 * max more for each reset in between. */
  lemma ShareInRun(ss: seq<S>, evs: seq<Event>, lo: nat, a: nat, k: nat, z: nat, max: int, i: nat, j: nat)
    requires SchedRuns.Run(ss, evs) && Steady(ss, evs, lo, a, k) && Steady(ss, evs, lo, k, z)
    requires lo <= 1 && lo <= i < NPROC && lo <= j < NPROC
    requires Shaped(ss[a]) && ss[a].cur == -1 && Bounded(ss[a], max) && Within(ss[a], 4 * max, lo)
    requires ss[a].st[i].used && ss[a].st[j].used
    ensures var d := Ticks(ss, evs, i, k, z) * ss[a].st[i].stride - Ticks(ss, evs, j, k, z) * ss[a].st[j].stride;
            var bound := (8 + 4 * RunResets(ss, evs, k, z)) * max;
            -bound <= d <= bound
    ensures Shaped(ss[z]) && Within(ss[z], 4 * max, lo)
  {
    hide Ok, Advances, Next, Busy, Bounded, Within, Count, ResetCount;
    SchedRuns.RunKeepsOk(ss, evs, a);
    OneState(ss[a], lo);
    var ws0, ms0 := Projects(ss, evs, lo, a, k, [ss[a]], []);
    var ws, ms := Projects(ss, evs, lo, k, z, ws0, ms0);
    CountPrefix(ws0, ms0, ws, ms, lo, i, |ms0|);
    CountPrefix(ws0, ms0, ws, ms, lo, j, |ms0|);
    ProportionalShare(ws, ms, max, lo, i, j, |ms0|, |ms|);
  }

  lemma OneState(s: S, lo: nat)
    requires Ok(s)
    ensures Window([s], [], lo)
  {
    hide Ok;
  }
}
