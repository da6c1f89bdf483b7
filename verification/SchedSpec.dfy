/** The tables of the two-level scheduler as values, and what must always hold of them. */
module SchedSpec {
  const NPROC := 64
  const STRIDE1 := 0x10_0000
  const PASSMAX := 1000000000

  datatype ProcState = UNUSED | EMBRYO | SLEEPING | RUNNABLE | RUNNING | ZOMBIE

  /** The schedstate of a process; NONE is the value 0 that pop_mlfq and exit store. */
  datatype SchedState = NONE | MLFQ | STRIDE

  /** A slot of ptable: pstride is an index of s_table, (level, index) is pmlfq_node. */
  datatype Proc = Proc(state: ProcState, sched: SchedState, pstride: nat, level: nat, index: nat)

  datatype Node = Node(used: bool, eticks: nat, proc: int)

  const EMPTY_NODE := Node(false, 0, -1)

  datatype Queue = Queue(table: seq<Node>, count: int, recent: nat)

  datatype Slot = Slot(used: bool, tickets: int, stride: int, pass: int, proc: int)

  /** ptable, m_table, s_table, schedticks and the running process (-1 when there is none). */
  datatype S = S(procs: seq<Proc>, mq: seq<Queue>, st: seq<Slot>, ticks: nat, cur: int)

  /* ---------- Sums over tables ---------- */

  function Sum<T>(t: seq<T>, f: T -> int): int {
    if t == [] then 0 else Sum(t[..|t| - 1], f) + f(t[|t| - 1])
  }

  lemma {:induction false} SumUpdate<T>(t: seq<T>, i: nat, x: T, f: T -> int)
    requires i < |t|
    ensures Sum(t[i := x], f) == Sum(t, f) - f(t[i]) + f(x)
  {
    var u := t[i := x];
    if i == |t| - 1 {
      assert u[..|t| - 1] == t[..|t| - 1];
    } else {
      assert u[..|t| - 1] == t[..|t| - 1][i := x];
      SumUpdate(t[..|t| - 1], i, x, f);
    }
  }

  lemma {:induction false} SumRange<T>(t: seq<T>, f: T -> int, lo: int, hi: int)
    requires forall i :: 0 <= i < |t| ==> lo <= f(t[i]) <= hi
    ensures lo * |t| <= Sum(t, f) <= hi * |t|
  {
    if t != [] {
      SumRange(t[..|t| - 1], f, lo, hi);
    }
  }

  lemma {:induction false} SumLess<T>(t: seq<T>, f: T -> int, g: T -> int)
    requires forall i :: 0 <= i < |t| ==> f(t[i]) <= g(t[i])
    ensures Sum(t, f) <= Sum(t, g)
  {
    if t != [] {
      SumLess(t[..|t| - 1], f, g);
    }
  }

  /** A sum of zeros and ones below the length has a zero. */
  lemma {:induction false} SumGap<T>(t: seq<T>, f: T -> int) returns (i: nat)
    requires forall i :: 0 <= i < |t| ==> 0 <= f(t[i]) <= 1
    requires Sum(t, f) < |t|
    ensures i < |t| && f(t[i]) == 0
  {
    if f(t[|t| - 1]) == 0 {
      i := |t| - 1;
    } else {
      i := SumGap(t[..|t| - 1], f);
    }
  }

  function NodeUsed(n: Node): int { if n.used then 1 else 0 }
  function NodeTicks(n: Node): int { n.eticks }
  function ProcMlfq(p: Proc): int { if p.sched == MLFQ then 1 else 0 }
  function ProcStride(p: Proc): int { if p.sched == STRIDE then 1 else 0 }
  function SlotUsed(s: Slot): int { if s.used then 1 else 0 }
  function SlotTickets(s: Slot): int { if s.used then s.tickets else 0 }

  /** Ticks left before the next quantum boundary, at level 1 and at level 2. */
  function Left1(n: Node): int { if n.used then 1 - n.eticks % 2 else 0 }
  function Left2(n: Node): int { if n.used then 3 - n.eticks % 4 else 0 }

  /* ---------- The multilevel feedback queue ---------- */

  predicate Shaped(s: S) {
    && |s.procs| == NPROC && |s.mq| == 3 && |s.st| == NPROC
    && (forall l :: 0 <= l < 3 ==> |s.mq[l].table| == NPROC && s.mq[l].recent < NPROC)
  }

  /** Each process in state MLFQ is in the one used node that its back pointer names. */
  ghost predicate Linked(s: S)
    requires Shaped(s)
  {
    && (forall p :: 0 <= p < NPROC && s.procs[p].sched == MLFQ ==>
          s.procs[p].level < 3 && s.procs[p].index < NPROC &&
          s.mq[s.procs[p].level].table[s.procs[p].index].used && s.mq[s.procs[p].level].table[s.procs[p].index].proc == p)
    && (forall l, i :: 0 <= l < 3 && 0 <= i < NPROC && s.mq[l].table[i].used ==>
          var p := s.mq[l].table[i].proc;
          0 <= p < NPROC && s.procs[p].sched == MLFQ && s.procs[p].level == l && s.procs[p].index == i)
    && (forall l, i :: 0 <= l < 3 && 0 <= i < NPROC && !s.mq[l].table[i].used ==> s.mq[l].table[i] == EMPTY_NODE)
  }

  /** The counts count, and every process counted is one of the NPROC. */
  ghost predicate Counted(s: S)
    requires Shaped(s)
  {
    && (forall l :: 0 <= l < 3 ==> s.mq[l].count == Sum(s.mq[l].table, NodeUsed))
    && s.mq[0].count + s.mq[1].count + s.mq[2].count == Sum(s.procs, ProcMlfq)
  }

  /** Allotments: a node leaves level 0 at 5 ticks and level 1 at 10. */
  ghost predicate Allotted(s: S)
    requires Shaped(s)
  {
    forall i :: 0 <= i < NPROC ==> s.mq[0].table[i].eticks < 5 && s.mq[1].table[i].eticks < 10
  }

  ghost predicate MlfqOk(s: S) {
    Shaped(s) && Linked(s) && Counted(s)
  }

  function NodeOf(s: S, p: nat): Node
    requires Shaped(s) && p < NPROC && s.procs[p].level < 3 && s.procs[p].index < NPROC
  {
    s.mq[s.procs[p].level].table[s.procs[p].index]
  }

  /** pop_mlfq, once it has found the node. */
  function Remove(s: S, p: nat): (r: S)
    requires Shaped(s) && p < NPROC && s.procs[p].level < 3 && s.procs[p].index < NPROC
    ensures Shaped(r)
  {
    var l, q := s.procs[p].level, s.mq[s.procs[p].level];
    s.(procs := s.procs[p := s.procs[p].(sched := NONE)],
       mq := s.mq[l := Queue(q.table[s.procs[p].index := EMPTY_NODE], q.count - 1, q.recent)])
  }

  /** push_mlfq, once it has found an empty node. */
  function Insert(s: S, p: nat, l: nat, i: nat): (r: S)
    requires Shaped(s) && p < NPROC && l < 3 && i < NPROC
    ensures Shaped(r)
  {
    var q := s.mq[l];
    s.(procs := s.procs[p := s.procs[p].(sched := MLFQ, level := l, index := i)],
       mq := s.mq[l := Queue(q.table[i := Node(true, 0, p)], q.count + 1, q.recent)])
  }

  lemma RemoveLinked(s: S, p: nat)
    requires Shaped(s) && Linked(s) && p < NPROC && s.procs[p].sched == MLFQ
    ensures Linked(Remove(s, p))
  {
  }

  lemma RemoveOk(s: S, p: nat)
    requires MlfqOk(s) && p < NPROC && s.procs[p].sched == MLFQ
    ensures MlfqOk(Remove(s, p))
    ensures s.procs[p].level < 3 && s.procs[p].index < NPROC && NodeOf(s, p).used && NodeOf(s, p).proc == p
  {
    RemoveLinked(s, p);
    PointerOk(s, p);
    hide Linked;
    var q := s.mq[s.procs[p].level];
    SumUpdate(q.table, s.procs[p].index, EMPTY_NODE, NodeUsed);
    SumUpdate(s.procs, p, s.procs[p].(sched := NONE), ProcMlfq);
  }

  lemma PointerOk(s: S, p: nat)
    requires Shaped(s) && Linked(s) && p < NPROC && s.procs[p].sched == MLFQ
    ensures s.procs[p].level < 3 && s.procs[p].index < NPROC && NodeOf(s, p).used && NodeOf(s, p).proc == p
  {
  }

  lemma InsertLinked(s: S, p: nat, l: nat, i: nat)
    requires Shaped(s) && Linked(s) && p < NPROC && s.procs[p].sched != MLFQ && l < 3 && i < NPROC && !s.mq[l].table[i].used
    ensures Linked(Insert(s, p, l, i))
  {
  }

  lemma InsertOk(s: S, p: nat, l: nat, i: nat)
    requires MlfqOk(s) && p < NPROC && s.procs[p].sched != MLFQ && l < 3 && i < NPROC && !s.mq[l].table[i].used
    ensures MlfqOk(Insert(s, p, l, i))
  {
    hide Linked;
    InsertLinked(s, p, l, i);
    SumUpdate(s.mq[l].table, i, Node(true, 0, p), NodeUsed);
    SumUpdate(s.procs, p, s.procs[p].(sched := MLFQ, level := l, index := i), ProcMlfq);
  }

  /** push_mlfq always finds room. */
  lemma Room(s: S, p: nat, l: nat) returns (i: nat)
    requires MlfqOk(s) && p < NPROC && s.procs[p].sched != MLFQ && l < 3
    ensures i < NPROC && !s.mq[l].table[i].used
  {
    forall k | 0 <= k < 3 ensures s.mq[k].count >= 0 {
      SumRange(s.mq[k].table, NodeUsed, 0, 1);
    }
    var all := s.procs[p := s.procs[p].(sched := MLFQ)];
    SumUpdate(s.procs, p, s.procs[p].(sched := MLFQ), ProcMlfq);
    SumRange(all, ProcMlfq, 0, 1);
    i := SumGap(s.mq[l].table, NodeUsed);
  }

  /* ---------- schedticks and the boost ---------- */

  function Potential(s: S): int
    requires Shaped(s)
  {
    Sum(s.mq[1].table, Left1) + Sum(s.mq[2].table, Left2)
  }

  function AllTicks(s: S): int
    requires Shaped(s)
  {
    Sum(s.mq[0].table, NodeTicks) + Sum(s.mq[1].table, NodeTicks) + Sum(s.mq[2].table, NodeTicks)
  }

  /** Once schedticks has reached 100, each further tick uses up potential until some quantum
      ends and the boost comes. */
  ghost predicate TicksOk(s: S)
    requires Shaped(s)
  {
    && (s.ticks <= 99 || s.ticks + Potential(s) <= 99 + 3 * NPROC)
    && AllTicks(s) <= s.ticks
  }

  /** The potential never exceeds 3 per process. */
  lemma PotentialRange(s: S)
    requires MlfqOk(s)
    ensures 0 <= Potential(s) <= 3 * NPROC
  {
    SumRange(s.mq[1].table, Left1, 0, 1);
    SumRange(s.mq[2].table, Left2, 0, 3);
    SumRange(s.mq[0].table, NodeUsed, 0, 1);
    SumLess(s.mq[1].table, Left1, NodeUsed);
    ThreeTimes(s.mq[2].table);
    SumRange(s.mq[1].table, NodeUsed, 0, 1);
    SumRange(s.procs, ProcMlfq, 0, 1);
  }

  lemma {:induction false} ThreeTimes(t: seq<Node>)
    ensures Sum(t, Left2) <= 3 * Sum(t, NodeUsed)
  {
    if t != [] {
      ThreeTimes(t[..|t| - 1]);
    }
  }

  /** The boost is never starved. */
  lemma BoostInTime(s: S)
    requires MlfqOk(s) && TicksOk(s)
    ensures s.ticks <= 99 + 3 * NPROC
  {
    PotentialRange(s);
  }

  lemma RemoveTicks(s: S, p: nat)
    requires MlfqOk(s) && p < NPROC && s.procs[p].sched == MLFQ
    ensures var r := Remove(s, p);
            && s.procs[p].level < 3 && s.procs[p].index < NPROC
            && Potential(r) <= Potential(s) && AllTicks(r) == AllTicks(s) - NodeOf(s, p).eticks && r.ticks == s.ticks
  {
    PointerOk(s, p);
    hide Linked;
    var t, i := s.mq[s.procs[p].level].table, s.procs[p].index;
    SumUpdate(t, i, EMPTY_NODE, NodeTicks);
    SumUpdate(t, i, EMPTY_NODE, Left1);
    SumUpdate(t, i, EMPTY_NODE, Left2);
  }

  lemma InsertTicks(s: S, p: nat, l: nat, i: nat)
    requires MlfqOk(s) && p < NPROC && l < 3 && i < NPROC && !s.mq[l].table[i].used
    ensures var r := Insert(s, p, l, i);
            && AllTicks(r) == AllTicks(s) && r.ticks == s.ticks
            && Potential(r) == Potential(s) + (if l == 0 then 0 else if l == 1 then 1 else 3)
  {
    assert s.mq[l].table[i] == EMPTY_NODE;
    hide Linked;
    SumUpdate(s.mq[l].table, i, Node(true, 0, p), NodeTicks);
    SumUpdate(s.mq[l].table, i, Node(true, 0, p), Left1);
    SumUpdate(s.mq[l].table, i, Node(true, 0, p), Left2);
  }

  /** One more tick for the node of p, and for the queue as a whole. */
  function Charge(s: S, p: nat): (r: S)
    requires Shaped(s) && p < NPROC && s.procs[p].level < 3 && s.procs[p].index < NPROC
    ensures Shaped(r)
  {
    var l, q, i := s.procs[p].level, s.mq[s.procs[p].level], s.procs[p].index;
    s.(ticks := s.ticks + 1, mq := s.mq[l := q.(table := q.table[i := q.table[i].(eticks := q.table[i].eticks + 1)])])
  }

  lemma ChargeLinked(s: S, p: nat)
    requires Shaped(s) && Linked(s) && p < NPROC && s.procs[p].sched == MLFQ
    ensures s.procs[p].level < 3 && s.procs[p].index < NPROC && Linked(Charge(s, p))
  {
  }

  lemma ChargeMlfq(s: S, p: nat)
    requires MlfqOk(s) && p < NPROC && s.procs[p].sched == MLFQ
    ensures s.procs[p].level < 3 && s.procs[p].index < NPROC && MlfqOk(Charge(s, p))
  {
    ChargeLinked(s, p);
    hide Linked;
    var t, i := s.mq[s.procs[p].level].table, s.procs[p].index;
    SumUpdate(t, i, t[i].(eticks := t[i].eticks + 1), NodeUsed);
  }

  lemma LeftStep(n: Node, x: Node)
    requires n.used && x == n.(eticks := n.eticks + 1)
    ensures Left1(x) - Left1(n) == if x.eticks % 2 != 0 then -1 else 1
    ensures Left2(x) - Left2(n) == if x.eticks % 4 != 0 then -1 else 3
  {
  }

  lemma ChargeTicks(s: S, p: nat)
    requires MlfqOk(s) && p < NPROC && s.procs[p].sched == MLFQ
    ensures s.procs[p].level < 3 && s.procs[p].index < NPROC
    ensures var r, l, e := Charge(s, p), s.procs[p].level, NodeOf(s, p).eticks + 1;
            && AllTicks(r) == AllTicks(s) + 1
            && Potential(r) == Potential(s) + (if l == 0 then 0 else if l == 1 then (if e % 2 != 0 then -1 else 1)
                                               else if e % 4 != 0 then -1 else 3)
  {
    PointerOk(s, p);
    hide Linked, Counted, Left1, Left2;
    var l, t, i := s.procs[p].level, s.mq[s.procs[p].level].table, s.procs[p].index;
    var x := t[i].(eticks := t[i].eticks + 1);
    SumUpdate(t, i, x, NodeTicks);
    LeftStep(t[i], x);
    if l == 1 {
      SumUpdate(t, i, x, Left1);
    } else if l == 2 {
      SumUpdate(t, i, x, Left2);
    }
  }

  /* ---------- The stride table ---------- */

  /** Tickets of used slots sum to 100 and at least 20 stay with slot 0, the feedback queue;
      strides follow the tickets; each other used slot belongs to one process in state STRIDE. */
  ghost predicate StrideOk(s: S)
    requires Shaped(s)
  {
    && s.st[0].used && s.st[0].proc == 0 && s.st[0].tickets >= 20
    && Sum(s.st, SlotTickets) == 100
    && (forall i :: 0 <= i < NPROC && s.st[i].used ==>
          s.st[i].tickets >= 1 && s.st[i].stride == STRIDE1 / s.st[i].tickets && 0 <= s.st[i].pass <= PASSMAX)
    && (forall i :: 1 <= i < NPROC && s.st[i].used ==>
          0 <= s.st[i].proc < NPROC && s.procs[s.st[i].proc].sched == STRIDE && s.procs[s.st[i].proc].pstride == i)
    && (forall p :: 0 <= p < NPROC && s.procs[p].sched == STRIDE ==>
          1 <= s.procs[p].pstride < NPROC && s.st[s.procs[p].pstride].used && s.st[s.procs[p].pstride].proc == p)
    && (forall p :: 0 <= p < NPROC && s.procs[p].sched == MLFQ ==> s.procs[p].pstride == 0)
    && Sum(s.st, SlotUsed) == 1 + Sum(s.procs, ProcStride)
  }

  /** One CPU: at most one process is running; processes without scheduling state are free or
      zombies; process 0 is init, which stays under the feedback queue. */
  ghost predicate RunOk(s: S)
    requires Shaped(s)
  {
    && -1 <= s.cur < NPROC
    && (forall p :: 0 <= p < NPROC ==> (s.procs[p].state == RUNNING <==> p == s.cur))
    && (forall p :: 0 <= p < NPROC ==> (s.procs[p].sched == NONE <==> s.procs[p].state in {UNUSED, ZOMBIE}))
    && s.procs[0].sched == MLFQ
  }

  ghost predicate Ok(s: S) {
    MlfqOk(s) && Allotted(s) && TicksOk(s) && StrideOk(s) && RunOk(s)
  }

  /* ---------- Choosing a process ---------- */

  predicate RunnableAt(s: S, l: nat, i: nat)
    requires Shaped(s) && l < 3 && i < NPROC
  {
    var n := s.mq[l].table[i];
    n.used && 0 <= n.proc < NPROC && s.procs[n.proc].state == RUNNABLE
  }

  /** How many nodes the cyclic scan from a looks at before b. */
  function Dist(a: nat, b: nat): nat
    requires a < NPROC && b < NPROC
  {
    if b > a then b - a - 1 else b - a - 1 + NPROC
  }

  /** Node i is the first runnable one after recent_index at the first level that has one. */
  ghost predicate FirstRunnable(s: S, l: nat, i: nat)
    requires Shaped(s)
  {
    && l < 3 && i < NPROC && RunnableAt(s, l, i)
    && (forall k, j :: 0 <= k < l && 0 <= j < NPROC ==> !RunnableAt(s, k, j))
    && (forall j :: 0 <= j < NPROC && RunnableAt(s, l, j) ==> Dist(s.mq[l].recent, i) <= Dist(s.mq[l].recent, j))
  }

  /** A level whose count is 0 has nothing to run. */
  lemma EmptyLevel(s: S, l: nat)
    requires MlfqOk(s) && l < 3
    ensures s.mq[l].count == 0 ==> forall j :: 0 <= j < NPROC ==> !RunnableAt(s, l, j)
  {
    hide Linked;
    if s.mq[l].count == 0 { SumZero(s.mq[l].table, NodeUsed); }
  }

  /** The scan goes upwards from the node after recent_index, around the end of the table. */
  lemma FirstExactly(s: S, l: nat, i: nat)
    requires Shaped(s) && FirstRunnable(s, l, i)
    ensures s.mq[l].table[i].used && 0 <= s.mq[l].table[i].proc < 64 && s.procs[s.mq[l].table[i].proc].state == RUNNABLE
    ensures forall k, j :: 0 <= k <= l && 0 <= j < 64 && s.mq[k].table[j].used && 0 <= s.mq[k].table[j].proc < 64 ==>
              s.procs[s.mq[k].table[j].proc].state == RUNNABLE ==>
                k == l && (i - s.mq[l].recent - 1) % 64 <= (j - s.mq[l].recent - 1) % 64
  {
    forall j | 0 <= j < 64 && RunnableAt(s, l, j) ensures (i - s.mq[l].recent - 1) % 64 <= (j - s.mq[l].recent - 1) % 64 {
      DistIs(s.mq[l].recent, i);
      DistIs(s.mq[l].recent, j);
    }
    forall k, j | 0 <= k <= l && 0 <= j < 64 && s.mq[k].table[j].used && 0 <= s.mq[k].table[j].proc < 64 &&
      s.procs[s.mq[k].table[j].proc].state == RUNNABLE ensures RunnableAt(s, k, j)
    {
    }
  }

  lemma DistIs(a: nat, b: nat)
    requires a < NPROC && b < NPROC
    ensures Dist(a, b) == (b - a - 1) % 64
  {
  }

  ghost predicate NoneRunnable(s: S)
    requires Shaped(s)
  {
    forall l, i :: 0 <= l < 3 && 0 <= i < NPROC ==> !RunnableAt(s, l, i)
  }

  /** A slot that competes: used, its process runnable. */
  predicate Competes(s: S, i: nat)
    requires Shaped(s) && i < NPROC
  {
    s.st[i].used && 0 <= s.st[i].proc < NPROC && s.procs[s.st[i].proc].state == RUNNABLE
  }

  /** Slot b has the least pass among slot 0 and the competing slots; slot 0 wins its ties. */
  ghost predicate LeastPass(s: S, b: nat)
    requires Shaped(s)
  {
    && b < NPROC && (b != 0 ==> Competes(s, b) && s.st[b].pass < s.st[0].pass)
    && (forall i :: 0 <= i < NPROC && Competes(s, i) ==> s.st[b].pass <= s.st[i].pass)
    && (forall i :: 0 <= i < b && Competes(s, i) ==> s.st[b].pass < s.st[i].pass)
    && s.st[b].pass <= s.st[0].pass
  }

  lemma {:induction false} SumZero<T>(t: seq<T>, f: T -> int)
    requires forall i :: 0 <= i < |t| ==> f(t[i]) >= 0
    ensures Sum(t, f) >= 0
    ensures Sum(t, f) == 0 ==> forall i :: 0 <= i < |t| ==> f(t[i]) == 0
  {
    if t != [] {
      SumZero(t[..|t| - 1], f);
    }
  }

  /** add_pass_stride: charge slot i, and reset every pass when the largest is exceeded. */
  function Charged(st: seq<Slot>, i: nat): (r: seq<Slot>)
    requires i < |st|
    ensures |r| == |st|
  {
    var x := st[i].pass + st[i].stride;
    var u := st[i := st[i].(pass := x)];
    if x > PASSMAX then seq(|st|, j requires 0 <= j < |st| => if u[j].used then u[j].(pass := 0) else u[j]) else u
  }

  /** Everyone under the feedback queue is at level 0 with no ticks, nobody else is anywhere. */
  ghost predicate Boosted(s: S, t: S) {
    && Shaped(s) && MlfqOk(t) && t.ticks == 0 && t.st == s.st && t.cur == s.cur
    && (forall p :: 0 <= p < NPROC ==> t.procs[p].(level := 0, index := 0) == s.procs[p].(level := 0, index := 0))
    && (forall p :: 0 <= p < NPROC && s.procs[p].sched == MLFQ ==>
          t.procs[p].level == 0 && t.procs[p].index < NPROC && NodeOf(t, p).eticks == 0)
    && (forall l :: 0 <= l < 3 ==> t.mq[l].recent == s.mq[l].recent)
  }

  /* ---------- One tick ---------- */

  /** The end of the allotment at levels 0 and 1. */
  predicate Spent(l: nat, e: nat) {
    (l == 0 && e >= 5) || (l == 1 && e >= 10)
  }

  /** The end of a quantum: 1, 2 and 4 ticks. */
  predicate QuantumEnd(l: nat, e: nat) {
    l == 0 || (l == 1 && e % 2 == 0) || (l == 2 && e % 4 == 0)
  }

  /** p moves to level l, whichever empty node it takes. */
  ghost predicate Moved(s: S, t: S, p: nat, l: nat)
    requires Shaped(s) && p < NPROC && s.procs[p].level < 3 && s.procs[p].index < NPROC && l < 3
  {
    exists i :: 0 <= i < NPROC && !Remove(s, p).mq[l].table[i].used && t == Insert(Remove(s, p), p, l, i)
  }

  /** add_tick for a process under the feedback queue, after the stride table was charged: v is the
      state before the boost. */
  ghost predicate QueueTick(s: S, v: S, t: S, quits: bool)
    requires Shaped(s) && 0 <= s.cur < NPROC
  {
    var p := s.cur;
    && s.procs[p].level < 3 && s.procs[p].index < NPROC
    && var u, l, e := Charge(s, p), s.procs[p].level, NodeOf(s, p).eticks + 1;
       && (quits <==> QuantumEnd(l, e))
       && (if Spent(l, e) then Moved(u, v, p, l + 1) else v == u)
       && (if quits && u.ticks >= 100 then Boosted(v, t) else t == v)
  }

  ghost predicate TickStep(s: S, t: S, quits: bool)
    requires Shaped(s) && 0 <= s.cur < NPROC && s.procs[s.cur].pstride < NPROC
  {
    var s' := s.(st := Charged(s.st, s.procs[s.cur].pstride));
    if s.procs[s.cur].sched != MLFQ then quits && t == s' else exists v :: QueueTick(s', v, t, quits)
  }

  lemma {:induction false} SumSame<T>(t: seq<T>, u: seq<T>, f: T -> int)
    requires |t| == |u| && forall i :: 0 <= i < |t| ==> f(t[i]) == f(u[i])
    ensures Sum(t, f) == Sum(u, f)
  {
    if t != [] {
      SumSame(t[..|t| - 1], u[..|t| - 1], f);
    }
  }

  /** The slot's pass grows by its stride; beyond 1000000000 every used slot starts again from pass 0. */
  lemma ChargedExactly(st: seq<Slot>, i: nat)
    requires i < |st|
    ensures var pass, r := st[i].pass + st[i].stride, Charged(st, i);
            && (pass <= 1000000000 ==> r == st[i := st[i].(pass := pass)])
            && (pass > 1000000000 ==> forall j :: 0 <= j < |st| && j != i ==> r[j] == if st[j].used then st[j].(pass := 0) else st[j])
            && (pass > 1000000000 && st[i].used ==> r[i] == st[i].(pass := 0))
  {
  }

  /** Charging a used slot keeps the stride table in order: passes stay within PASSMAX. */
  lemma ChargedOk(s: S, i: nat)
    requires Shaped(s) && StrideOk(s) && i < NPROC && s.st[i].used
    ensures var t := s.(st := Charged(s.st, i)); Shaped(t) && StrideOk(t)
  {
    hide Sum, Charged, SlotTickets, SlotUsed;
    forall j | 0 <= j < NPROC
      ensures var a, b := s.st[j], Charged(s.st, i)[j];
              b.(pass := a.pass) == a && SlotTickets(a) == SlotTickets(b) && SlotUsed(a) == SlotUsed(b)
      ensures s.st[j].used ==> 0 <= Charged(s.st, i)[j].pass <= PASSMAX
    {
      ChargedAt(s, i, j);
    }
    SumSame(s.st, Charged(s.st, i), SlotTickets);
    SumSame(s.st, Charged(s.st, i), SlotUsed);
  }

  lemma ChargedAt(s: S, i: nat, j: nat)
    requires Shaped(s) && StrideOk(s) && i < NPROC && j < NPROC && s.st[i].used
    ensures var a, b := s.st[j], Charged(s.st, i)[j];
            b.(pass := a.pass) == a && SlotTickets(a) == SlotTickets(b) && SlotUsed(a) == SlotUsed(b)
    ensures s.st[j].used ==> 0 <= Charged(s.st, i)[j].pass <= PASSMAX
  {
    hide Sum;
    StrideBound(s.st[i].tickets);
  }

  lemma StrideBound(t: int)
    requires t >= 1
    ensures 0 <= STRIDE1 / t
  {
  }

  /** The stride table only looks at which processes are in state STRIDE, and at their slots. */
  lemma SameStride(s: S, t: S)
    requires Shaped(s) && Shaped(t) && StrideOk(s) && t.st == s.st
    requires forall p :: 0 <= p < NPROC ==> t.procs[p].sched == s.procs[p].sched && t.procs[p].pstride == s.procs[p].pstride
    ensures StrideOk(t)
  {
    SumSame(s.procs, t.procs, ProcStride);
  }

  lemma MovedOk(s: S, t: S, p: nat, l: nat)
    requires MlfqOk(s) && p < NPROC && s.procs[p].sched == MLFQ && l < 3
    ensures s.procs[p].level < 3 && s.procs[p].index < NPROC
    ensures Moved(s, t, p, l) ==>
              && MlfqOk(t) && t.ticks == s.ticks && t.st == s.st && t.cur == s.cur
              && AllTicks(t) <= AllTicks(s) - NodeOf(s, p).eticks
              && Potential(t) <= Potential(s) + (if l == 0 then 0 else if l == 1 then 1 else 3)
              && (forall q :: 0 <= q < NPROC ==> t.procs[q].(level := 0, index := 0) == s.procs[q].(level := 0, index := 0))
  {
    RemoveOk(s, p);
    hide Linked, Counted;
    if Moved(s, t, p, l) {
      var i :| 0 <= i < NPROC && !Remove(s, p).mq[l].table[i].used && t == Insert(Remove(s, p), p, l, i);
      InsertOk(Remove(s, p), p, l, i);
      RemoveTicks(s, p);
      InsertTicks(Remove(s, p), p, l, i);
    }
  }

  /** Allotments hold after the move that they call for. */
  lemma TickAllotted(s: S, v: S)
    requires MlfqOk(s) && Allotted(s) && 0 <= s.cur < NPROC && s.procs[s.cur].sched == MLFQ
    requires s.procs[s.cur].level < 3 && s.procs[s.cur].index < NPROC
    requires var p, u, l, e := s.cur, Charge(s, s.cur), s.procs[s.cur].level, NodeOf(s, s.cur).eticks + 1;
             if Spent(l, e) then Moved(u, v, p, l + 1) else v == u
    ensures Shaped(v) && Allotted(v)
  {
    hide Linked, Counted;
  }

  lemma BoostedTicks(s: S, t: S)
    requires Boosted(s, t)
    ensures Allotted(t) && TicksOk(t)
  {
    NoTicks(s, t);
    hide Linked, Counted;
    forall l | 0 <= l < 3 ensures Sum(t.mq[l].table, NodeTicks) == 0 {
      SumRange(t.mq[l].table, NodeTicks, 0, 0);
    }
  }

  lemma NoTicks(s: S, t: S)
    requires Boosted(s, t)
    ensures forall l, i :: 0 <= l < 3 && 0 <= i < NPROC ==> t.mq[l].table[i].eticks == 0
  {
    forall l, i | 0 <= l < 3 && 0 <= i < NPROC && t.mq[l].table[i].used ensures t.mq[l].table[i].eticks == 0 {
      var p := t.mq[l].table[i].proc;
      assert NodeOf(t, p) == t.mq[l].table[i];
    }
  }

  /** A tick keeps the feedback queue and the potential in order. */
  lemma TickQueue(s: S, v: S, t: S, quits: bool)
    requires MlfqOk(s) && Allotted(s) && TicksOk(s) && 0 <= s.cur < NPROC && s.procs[s.cur].sched == MLFQ
    requires QueueTick(s, v, t, quits)
    ensures MlfqOk(t) && Allotted(t) && TicksOk(t) && t.st == s.st && t.cur == s.cur
    ensures forall q :: 0 <= q < NPROC ==> t.procs[q].(level := 0, index := 0) == s.procs[q].(level := 0, index := 0)
  {
    hide Linked, Counted, Allotted, Boosted, Moved, AllTicks, Potential;
    var p := s.cur;
    var u, l, e := Charge(s, p), s.procs[p].level, NodeOf(s, p).eticks + 1;
    ChargeMlfq(s, p);
    ChargeTicks(s, p);
    PotentialRange(s);
    TickAllotted(s, v);
    EticksBelow(s, p);
    if Spent(l, e) {
      MovedOk(u, v, p, l + 1);
    }
    if quits && u.ticks >= 100 {
      BoostedTicks(v, t);
      BoostedSame(v, t);
    }
  }

  lemma EticksBelow(s: S, p: nat)
    requires MlfqOk(s) && Allotted(s) && p < NPROC && s.procs[p].level < 3 && s.procs[p].index < NPROC
    ensures s.procs[p].level == 0 ==> NodeOf(s, p).eticks < 5
    ensures s.procs[p].level == 1 ==> NodeOf(s, p).eticks < 10
  {
  }

  lemma BoostedSame(s: S, t: S)
    requires Boosted(s, t)
    ensures MlfqOk(t) && t.st == s.st && t.cur == s.cur
    ensures Shaped(s) && forall p :: 0 <= p < NPROC ==> t.procs[p].(level := 0, index := 0) == s.procs[p].(level := 0, index := 0)
  {
  }

  /** A tick keeps the whole invariant. */
  lemma TickOk(s: S, t: S, quits: bool)
    requires Ok(s) && 0 <= s.cur
    ensures s.procs[s.cur].pstride < NPROC
    ensures TickStep(s, t, quits) ==> Ok(t)
  {
    RunningSlot(s);
    if TickStep(s, t, quits) {
      hide MlfqOk, Linked, Counted, Allotted, TicksOk, StrideOk, Potential, AllTicks, QueueTick;
      var s' := s.(st := Charged(s.st, s.procs[s.cur].pstride));
      ChargedOk(s, s.procs[s.cur].pstride);
      QueueSame(s, s');
      if s.procs[s.cur].sched == MLFQ {
        var v :| QueueTick(s', v, t, quits);
        TickQueue(s', v, t, quits);
        MlfqShaped(t);
        SameStride(s', t);
        RunSame(s', t);
      }
    }
  }

  /** A tick of a process under the feedback queue, in full: e is its tick count at level l. It leaves level 0 at its fifth
      tick there and level 1 at its tenth and not before, its quanta are of 1, 2 and 4 ticks, and everybody is lifted to
      level 0 when a quantum ends at 100 ticks or later. */
  lemma TickExactly(s: S, t: S, quits: bool)
    requires Ok(s) && 0 <= s.cur && s.procs[s.cur].sched == MLFQ && s.procs[s.cur].pstride < NPROC && TickStep(s, t, quits)
    ensures Shaped(t) && s.procs[s.cur].level < 3 && s.procs[s.cur].index < NPROC
    ensures forall q :: 0 <= q < NPROC ==> t.procs[q].(level := 0, index := 0) == s.procs[q].(level := 0, index := 0)
    ensures forall q :: 0 <= q < NPROC && t.procs[q].sched == MLFQ ==> t.procs[q].level < 3 && t.procs[q].index < NPROC
    ensures var p, l := s.cur, s.procs[s.cur].level;
            var e := s.mq[l].table[s.procs[p].index].eticks + 1;
            var down := (l == 0 && e == 5) || (l == 1 && e == 10);
            && (quits <==> l == 0 || (l == 1 && e % 2 == 0) || (l == 2 && e % 4 == 0))
            && if quits && s.ticks + 1 >= 100 then
                 && t.ticks == 0
                 && forall q :: 0 <= q < NPROC && s.procs[q].sched == MLFQ ==>
                      t.procs[q].level == 0 && t.mq[0].table[t.procs[q].index] == Node(true, 0, q)
               else
                 && t.ticks == s.ticks + 1
                 && t.procs[p].level == (if down then l + 1 else l)
                 && t.mq[t.procs[p].level].table[t.procs[p].index] == Node(true, if down then 0 else e, p)
                 && forall q :: 0 <= q < NPROC && q != p && s.procs[q].sched == MLFQ ==>
                      t.procs[q] == s.procs[q] && s.procs[q].level < 3 && s.procs[q].index < NPROC && NodeOf(t, q) == NodeOf(s, q)
  {
    hide Linked, Counted, Allotted, TicksOk, StrideOk, Moved, Boosted, Charged;
    var p := s.cur;
    PointerOk(s, p);
    EticksBelow(s, p);
    var s' := s.(st := Charged(s.st, s.procs[p].pstride));
    QueueSame(s, s');
    var v :| QueueTick(s', v, t, quits);
    var u, l, e := Charge(s', p), s.procs[p].level, NodeOf(s, p).eticks + 1;
    ChargeMlfq(s', p);
    ChargeNodes(s', p);
    Nodes(u);
    if Spent(l, e) { MovedNodes(u, v, p, l + 1); }
    Nodes(v);
    if quits && u.ticks >= 100 { BoostedNodes(v, t); }
  }

  /** Where the processes under the feedback queue are. */
  lemma Nodes(s: S)
    requires MlfqOk(s)
    ensures forall q :: 0 <= q < NPROC && s.procs[q].sched == MLFQ ==>
              s.procs[q].level < 3 && s.procs[q].index < NPROC && NodeOf(s, q).used && NodeOf(s, q).proc == q
  {
  }

  lemma ChargeNodes(s: S, p: nat)
    requires MlfqOk(s) && p < NPROC && s.procs[p].sched == MLFQ
    ensures s.procs[p].level < 3 && s.procs[p].index < NPROC
    ensures var u := Charge(s, p);
            && u.procs == s.procs && u.ticks == s.ticks + 1 && NodeOf(u, p) == Node(true, NodeOf(s, p).eticks + 1, p)
            && forall q :: 0 <= q < NPROC && q != p && s.procs[q].sched == MLFQ ==>
                 s.procs[q].level < 3 && s.procs[q].index < NPROC && NodeOf(u, q) == NodeOf(s, q)
  {
  }

  /** Moving p disturbs no other node. */
  lemma MoveElsewhere(t: S, p: nat, l: nat, i: nat)
    requires MlfqOk(t) && p < NPROC && t.procs[p].sched == MLFQ && l < 3 && i < NPROC
    requires t.procs[p].level < 3 && t.procs[p].index < NPROC && !Remove(t, p).mq[l].table[i].used
    ensures var u := Insert(Remove(t, p), p, l, i);
            && u.procs[p] == t.procs[p].(level := l, index := i) && NodeOf(u, p) == Node(true, 0, p)
            && (forall q :: 0 <= q < NPROC && q != p ==> u.procs[q] == t.procs[q])
            && (forall q :: 0 <= q < NPROC && q != p && t.procs[q].sched == MLFQ ==>
                  t.procs[q].level < 3 && t.procs[q].index < NPROC && NodeOf(u, q) == NodeOf(t, q))
            && (forall k :: 0 <= k < 3 ==> u.mq[k].recent == t.mq[k].recent)
  {
    hide Linked, Counted, Remove, Insert;
    RemoveElsewhere(t, p);
    InsertElsewhere(Remove(t, p), p, l, i);
  }

  lemma RemoveElsewhere(t: S, p: nat)
    requires MlfqOk(t) && p < NPROC && t.procs[p].sched == MLFQ
    ensures t.procs[p].level < 3 && t.procs[p].index < NPROC
    ensures var r := Remove(t, p);
            && r.procs[p] == t.procs[p].(sched := NONE)
            && (forall q :: 0 <= q < NPROC && q != p ==> r.procs[q] == t.procs[q])
            && (forall q :: 0 <= q < NPROC && q != p && t.procs[q].sched == MLFQ ==>
                  t.procs[q].level < 3 && t.procs[q].index < NPROC && NodeOf(r, q) == NodeOf(t, q) && NodeOf(r, q).used)
            && (forall k :: 0 <= k < 3 ==> r.mq[k].recent == t.mq[k].recent)
  {
    hide Counted;
  }

  lemma InsertElsewhere(r: S, p: nat, l: nat, i: nat)
    requires Shaped(r) && p < NPROC && l < 3 && i < NPROC && !r.mq[l].table[i].used
    ensures var u := Insert(r, p, l, i);
            && u.procs[p] == r.procs[p].(sched := MLFQ, level := l, index := i) && NodeOf(u, p) == Node(true, 0, p)
            && (forall q :: 0 <= q < NPROC && q != p ==> u.procs[q] == r.procs[q])
            && (forall q :: 0 <= q < NPROC && q != p && r.procs[q].level < 3 && r.procs[q].index < NPROC && NodeOf(r, q).used ==>
                  NodeOf(u, q) == NodeOf(r, q))
            && (forall k :: 0 <= k < 3 ==> u.mq[k].recent == r.mq[k].recent)
  {
  }

  lemma MovedNodes(s: S, t: S, p: nat, l: nat)
    requires MlfqOk(s) && p < NPROC && s.procs[p].sched == MLFQ && l < 3
    requires s.procs[p].level < 3 && s.procs[p].index < NPROC && Moved(s, t, p, l)
    ensures MlfqOk(t) && t.ticks == s.ticks && t.procs[p].level == l && t.procs[p].index < NPROC && NodeOf(t, p) == Node(true, 0, p)
    ensures forall q :: 0 <= q < NPROC ==> t.procs[q].(level := 0, index := 0) == s.procs[q].(level := 0, index := 0)
    ensures forall q :: 0 <= q < NPROC && q != p && s.procs[q].sched == MLFQ ==>
              t.procs[q] == s.procs[q] && s.procs[q].level < 3 && s.procs[q].index < NPROC && NodeOf(t, q) == NodeOf(s, q)
  {
    hide Linked, Counted, Remove, Insert;
    MovedOk(s, t, p, l);
    var i :| 0 <= i < NPROC && !Remove(s, p).mq[l].table[i].used && t == Insert(Remove(s, p), p, l, i);
    MoveElsewhere(s, p, l, i);
  }

  lemma BoostedNodes(s: S, t: S)
    requires Boosted(s, t)
    ensures Shaped(s) && MlfqOk(t) && t.ticks == 0
    ensures forall q :: 0 <= q < NPROC ==> t.procs[q].(level := 0, index := 0) == s.procs[q].(level := 0, index := 0)
    ensures forall q :: 0 <= q < NPROC && t.procs[q].sched == MLFQ ==>
              t.procs[q].level == 0 && t.procs[q].index < NPROC && NodeOf(t, q) == Node(true, 0, q)
  {
    hide Counted;
  }

  lemma RunningSlot(s: S)
    requires Ok(s) && 0 <= s.cur
    ensures s.procs[s.cur].pstride < NPROC && s.st[s.procs[s.cur].pstride].used
  {
    hide Linked, Counted;
  }

  lemma MlfqShaped(s: S)
    requires MlfqOk(s)
    ensures Shaped(s)
  {
  }

  lemma QueueSame(s: S, t: S)
    requires MlfqOk(s) && Allotted(s) && TicksOk(s) && t.mq == s.mq && t.procs == s.procs && t.ticks == s.ticks && |t.st| == NPROC
    ensures MlfqOk(t) && Allotted(t) && TicksOk(t)
  {
  }

  lemma RunSame(s: S, t: S)
    requires Shaped(s) && Shaped(t) && RunOk(s) && t.cur == s.cur
    requires forall p :: 0 <= p < NPROC ==> t.procs[p].(level := 0, index := 0) == s.procs[p].(level := 0, index := 0)
    ensures RunOk(t)
  {
    assert forall p :: 0 <= p < NPROC ==> t.procs[p].state == s.procs[p].state && t.procs[p].sched == s.procs[p].sched;
  }

  /* ---------- One pick ---------- */

  /** A stride client that pick_stride's last search can see. */
  predicate Eligible(s: S, i: nat)
    requires Shaped(s) && i < NPROC
  {
    i >= 1 && Competes(s, i) && s.st[i].pass < PASSMAX
  }

  /** The last search: the eligible client of least pass, or slot 0 when there is none. */
  ghost predicate Fallback(s: S, b: nat)
    requires Shaped(s)
  {
    && b < NPROC && (b == 0 ==> forall i :: 0 <= i < NPROC ==> !Eligible(s, i))
    && (b != 0 ==> Eligible(s, b) && forall i :: 0 <= i < NPROC && Eligible(s, i) ==>
          s.st[b].pass <= s.st[i].pass && (i < b ==> s.st[b].pass < s.st[i].pass))
  }

  /** pick_stride picks process p and leaves state t; b is the slot of least pass. */
  ghost predicate PickStep(s: S, t: S, b: nat, p: int)
    requires Shaped(s)
  {
    && LeastPass(s, b)
    && if b != 0 then p == s.st[b].proc && t == s
       else if NoneRunnable(s) then t == s && exists f: nat :: Fallback(s, f) && p == s.st[f].proc
       else exists l: nat, i: nat :: FirstRunnable(s, l, i) && p == s.mq[l].table[i].proc && t == s.(mq := s.mq[l := s.mq[l].(recent := i)])
  }

  /** The pick in full. Slot b has the least pass of slot 0 and the slots whose process can run, the lower slot winning
      a tie. When that is slot 0, something under the feedback queue runs if anything there can; otherwise the client
      of least pass below 1000000000, or init when there is none. */
  lemma PickExactly(s: S, t: S, b: nat, p: int)
    requires Ok(s) && PickStep(s, t, b, p)
    ensures b < 64 && 0 <= p < 64 && s.st[b].pass <= s.st[0].pass
    ensures forall i :: 0 <= i < 64 && s.st[i].used && 0 <= s.st[i].proc < 64 && s.procs[s.st[i].proc].state == RUNNABLE ==>
              s.st[b].pass <= s.st[i].pass && (i < b ==> s.st[b].pass < s.st[i].pass)
    ensures b != 0 ==> s.st[b].used && p == s.st[b].proc && s.procs[p].state == RUNNABLE && s.st[b].pass < s.st[0].pass
    ensures b == 0 && (exists q :: 0 <= q < 64 && s.procs[q].sched == MLFQ && s.procs[q].state == RUNNABLE) ==>
              s.procs[p].sched == MLFQ && s.procs[p].state == RUNNABLE
    ensures b == 0 && (forall q :: 0 <= q < 64 && s.procs[q].sched == MLFQ ==> s.procs[q].state != RUNNABLE) ==>
              var f := s.procs[p].pstride;
              && p == s.st[f].proc
              && (f != 0 ==> s.procs[p].state == RUNNABLE && s.st[f].pass < 1000000000)
              && forall i :: 1 <= i < 64 && s.st[i].used && s.procs[s.st[i].proc].state == RUNNABLE && s.st[i].pass < 1000000000 ==>
                   f != 0 && s.st[f].pass <= s.st[i].pass && (i < f ==> s.st[f].pass < s.st[i].pass)
  {
    hide Counted, Allotted, TicksOk;
    PickProc(s, t, b, p);
    forall i | 1 <= i < 64 && s.st[i].used && s.procs[s.st[i].proc].state == RUNNABLE && s.st[i].pass < 1000000000 ensures Eligible(s, i) {
    }
    forall i | 0 <= i < 64 && s.st[i].used && 0 <= s.st[i].proc < 64 && s.procs[s.st[i].proc].state == RUNNABLE ensures Competes(s, i) {
    }
  }

  /** Whose process it is. */
  lemma PickProc(s: S, t: S, b: nat, p: int)
    requires Ok(s) && PickStep(s, t, b, p)
    ensures 0 <= p < NPROC && s.procs[p].pstride < NPROC
    ensures b == 0 && !NoneRunnable(s) ==> s.procs[p].sched == MLFQ && s.procs[p].state == RUNNABLE
    ensures b == 0 && NoneRunnable(s) ==> Fallback(s, s.procs[p].pstride) && p == s.st[s.procs[p].pstride].proc
    ensures NoneRunnable(s) <==> forall q :: 0 <= q < NPROC && s.procs[q].sched == MLFQ ==> s.procs[q].state != RUNNABLE
  {
    hide Counted, Allotted, TicksOk;
    forall q | 0 <= q < NPROC && s.procs[q].sched == MLFQ && s.procs[q].state == RUNNABLE ensures !NoneRunnable(s) {
      assert RunnableAt(s, s.procs[q].level, s.procs[q].index);
    }
    if !NoneRunnable(s) {
      var l, i :| 0 <= l < 3 && 0 <= i < NPROC && RunnableAt(s, l, i);
      assert s.procs[s.mq[l].table[i].proc].sched == MLFQ;
    }
  }

  /** Work conservation, exactly: the process picked can run if and only if something under the
      feedback queue can, or some runnable stride client has a pass below PASSMAX. In particular
      a first client, which joins at PASSMAX, is passed over while nothing else can run. */
  lemma WorkConserving(s: S, t: S, b: nat, p: int)
    requires Ok(s) && PickStep(s, t, b, p)
    ensures 0 <= p < NPROC
    ensures s.procs[p].state == RUNNABLE <==>
              (exists q :: 0 <= q < NPROC && s.procs[q].sched == MLFQ && s.procs[q].state == RUNNABLE)
              || (exists i :: 0 <= i < NPROC && Eligible(s, i))
  {
    hide Counted, Allotted, TicksOk;
    forall q | 0 <= q < NPROC && s.procs[q].sched == MLFQ && s.procs[q].state == RUNNABLE ensures !NoneRunnable(s) {
      assert RunnableAt(s, s.procs[q].level, s.procs[q].index);
    }
    if !NoneRunnable(s) {
      var l, i :| 0 <= l < 3 && 0 <= i < NPROC && RunnableAt(s, l, i);
      assert s.procs[s.mq[l].table[i].proc].sched == MLFQ;
    }
    if b != 0 {
      assert Eligible(s, b);
    }
  }

  /** A pick that is not j brings the scan nearer to j. */
  lemma Nearer(a: nat, b: nat, j: nat)
    requires a < NPROC && b < NPROC && j < NPROC && b != j && Dist(a, b) <= Dist(a, j)
    ensures Dist(b, j) < Dist(a, j)
  {
  }

  /* ---------- Joining and leaving ---------- */

  /** set_cpu_share, once process p has left the feedback queue: slot e takes x of the tickets of slot 0. */
  function Joined(s: S, p: nat, e: nat, x: int, pass: int): S
    requires Shaped(s) && p < NPROC && e < NPROC && x != 0 && s.st[0].tickets != x
  {
    var st := s.st[e := Slot(true, x, STRIDE1 / x, pass, p)];
    var left := s.st[0].tickets - x;
    s.(st := st[0 := st[0].(tickets := left, stride := STRIDE1 / left)],
       procs := s.procs[p := s.procs[p].(sched := STRIDE, pstride := e)])
  }

  lemma JoinedStride(s: S, p: nat, e: nat, x: int, pass: int)
    requires Shaped(s) && StrideOk(s) && p < NPROC && s.procs[p].sched == NONE
    requires 1 <= e < NPROC && !s.st[e].used && 1 <= x <= s.st[0].tickets - 20 && 0 <= pass <= PASSMAX
    ensures StrideOk(Joined(s, p, e, x, pass))
  {
    hide Sum;
    var a := Slot(true, x, STRIDE1 / x, pass, p);
    var st := s.st[e := a];
    var left := s.st[0].tickets - x;
    var b := st[0].(tickets := left, stride := STRIDE1 / left);
    SumUpdate(s.st, e, a, SlotTickets);
    SumUpdate(s.st, e, a, SlotUsed);
    SumUpdate(st, 0, b, SlotTickets);
    SumUpdate(st, 0, b, SlotUsed);
    SumUpdate(s.procs, p, s.procs[p].(sched := STRIDE, pstride := e), ProcStride);
  }

  /** exit of a stride client: its tickets go back to slot 0. */
  function Left(s: S, p: nat): S
    requires Shaped(s) && p < NPROC && s.procs[p].pstride < NPROC && s.st[0].tickets + s.st[s.procs[p].pstride].tickets != 0
  {
    var e := s.procs[p].pstride;
    var sum := s.st[0].tickets + s.st[e].tickets;
    var st := s.st[0 := s.st[0].(tickets := sum, stride := STRIDE1 / sum)];
    s.(st := st[e := st[e].(used := false)], procs := s.procs[p := s.procs[p].(sched := NONE)])
  }

  lemma LeftStride(s: S, p: nat)
    requires Shaped(s) && StrideOk(s) && p < NPROC && s.procs[p].sched == STRIDE
    ensures s.procs[p].pstride < NPROC && s.st[s.procs[p].pstride].tickets >= 1
    ensures StrideOk(Left(s, p))
  {
    hide Sum;
    var e := s.procs[p].pstride;
    var sum := s.st[0].tickets + s.st[e].tickets;
    var b := s.st[0].(tickets := sum, stride := STRIDE1 / sum);
    var st := s.st[0 := b];
    SumUpdate(s.st, 0, b, SlotTickets);
    SumUpdate(s.st, 0, b, SlotUsed);
    SumUpdate(st, e, st[e].(used := false), SlotTickets);
    SumUpdate(st, e, st[e].(used := false), SlotUsed);
    SumUpdate(s.procs, p, s.procs[p].(sched := NONE), ProcStride);
  }

  /** A process outside the stride table may leave or enter the feedback queue. */
  lemma QueueOnly(s: S, t: S, p: nat)
    requires Shaped(s) && Shaped(t) && StrideOk(s) && t.st == s.st && p < NPROC
    requires s.procs[p].sched != STRIDE && t.procs[p].sched != STRIDE && t.procs[p].pstride == 0
    requires forall q :: 0 <= q < NPROC && q != p ==> t.procs[q] == s.procs[q]
    ensures StrideOk(t)
  {
    SumSame(s.procs, t.procs, ProcStride);
  }

  /** The feedback queue does not see processes in the other two states. */
  lemma StrideOnly(s: S, t: S, p: nat)
    requires MlfqOk(s) && Allotted(s) && TicksOk(s) && Shaped(t) && t.mq == s.mq && t.ticks == s.ticks && p < NPROC
    requires s.procs[p].sched != MLFQ && t.procs[p].sched != MLFQ
    requires forall q :: 0 <= q < NPROC && q != p ==> t.procs[q] == s.procs[q]
    ensures MlfqOk(t) && Allotted(t) && TicksOk(t)
  {
    SumSame(s.procs, t.procs, ProcMlfq);
  }

  /** Only run states and recent indices have changed. */
  lemma StatesOnly(s: S, t: S)
    requires Ok(s) && Shaped(t) && t.st == s.st && t.ticks == s.ticks && RunOk(t)
    requires forall q :: 0 <= q < NPROC ==> t.procs[q] == s.procs[q].(state := t.procs[q].state)
    requires forall l :: 0 <= l < 3 ==> t.mq[l] == s.mq[l].(recent := t.mq[l].recent)
    ensures Ok(t)
  {
    SumSame(s.procs, t.procs, ProcMlfq);
    SumSame(s.procs, t.procs, ProcStride);
  }

  /** Leaving the feedback queue. */
  lemma RemoveRest(s: S, p: nat)
    requires MlfqOk(s) && Allotted(s) && TicksOk(s) && StrideOk(s) && p < NPROC && s.procs[p].sched == MLFQ
    ensures s.procs[p].level < 3 && s.procs[p].index < NPROC
    ensures var t := Remove(s, p); MlfqOk(t) && Allotted(t) && TicksOk(t) && StrideOk(t)
  {
    RemoveOk(s, p);
    RemoveTicks(s, p);
    QueueOnly(s, Remove(s, p), p);
    hide Linked, Counted, StrideOk;
  }

  /** Entering it at level 0. */
  lemma InsertRest(s: S, p: nat, i: nat)
    requires MlfqOk(s) && Allotted(s) && TicksOk(s) && StrideOk(s) && p < NPROC && s.procs[p].sched == NONE
    requires s.procs[p].pstride == 0 && i < NPROC && !s.mq[0].table[i].used
    ensures var t := Insert(s, p, 0, i); MlfqOk(t) && Allotted(t) && TicksOk(t) && StrideOk(t)
  {
    InsertOk(s, p, 0, i);
    InsertTicks(s, p, 0, i);
    QueueOnly(s, Insert(s, p, 0, i), p);
    hide Linked, Counted, StrideOk;
  }

  /** set_cpu_share always finds an empty slot: the caller and init hold none of the others. */
  lemma SomeSlot(s: S, p: nat) returns (e: nat)
    requires Shaped(s) && StrideOk(s) && 0 < p < NPROC && s.procs[p].sched == MLFQ && s.procs[0].sched == MLFQ
    ensures 1 <= e < NPROC && !s.st[e].used
  {
    var a := s.procs[0 := s.procs[0].(sched := STRIDE)];
    var b := a[p := a[p].(sched := STRIDE)];
    SumUpdate(s.procs, 0, s.procs[0].(sched := STRIDE), ProcStride);
    SumUpdate(a, p, a[p].(sched := STRIDE), ProcStride);
    SumRange(b, ProcStride, 0, 1);
    e := SumGap(s.st, SlotUsed);
  }

  /* ---------- The steps of a run ---------- */

  datatype Event =
    | Tick(quits: bool)                           // add_tick, with its answer
    | Pick(b: nat)                                // one turn of scheduler, b the slot of least pass
    | Leave(state: ProcState)                     // yield or sleep
    | Wakeup(p: nat)                              // wakeup1 for one process
    | Reap(p: nat)                                // wait frees a zombie
    | Fork(p: nat, i: nat)                        // allocproc takes slot p and node i
    | Exit                                        // the running process, not init
    | Share(x: int, e: nat, pass: int)            // set_cpu_share gives slot e and x tickets

  ghost predicate Next(s: S, ev: Event, t: S)
    requires Shaped(s)
  {
    match ev
    case Tick(quits) => 0 <= s.cur < NPROC && s.procs[s.cur].pstride < NPROC && TickStep(s, t, quits)
    case Pick(b) =>
      && s.cur == -1 && 0 <= t.cur < NPROC && t.procs == s.procs[t.cur := s.procs[t.cur].(state := RUNNING)]
      && PickStep(s, t.(procs := s.procs, cur := -1), b, t.cur)
    case Leave(state) =>
      && 0 <= s.cur < NPROC && state in {RUNNABLE, SLEEPING}
      && t == s.(procs := s.procs[s.cur := s.procs[s.cur].(state := state)], cur := -1)
    case Wakeup(p) =>
      p < NPROC && s.procs[p].state == SLEEPING && t == s.(procs := s.procs[p := s.procs[p].(state := RUNNABLE)])
    case Reap(p) =>
      p < NPROC && s.procs[p].state == ZOMBIE && t == s.(procs := s.procs[p := s.procs[p].(state := UNUSED)])
    case Fork(p, i) =>
      && p < NPROC && s.procs[p].state == UNUSED && (forall q :: 0 <= q < p ==> s.procs[q].state != UNUSED)
      && i < NPROC && !s.mq[0].table[i].used && (forall j :: 0 <= j < i ==> s.mq[0].table[j].used)
      && t == Insert(s.(procs := s.procs[p := s.procs[p].(state := RUNNABLE, pstride := 0)]), p, 0, i)
    case Exit =>
      0 < s.cur < NPROC &&
      var z := s.procs[s.cur].(state := ZOMBIE, sched := NONE);
      if s.procs[s.cur].sched == STRIDE then
        && z.pstride < NPROC && s.st[0].tickets + s.st[z.pstride].tickets != 0
        && t == Left(s, s.cur).(procs := s.procs[s.cur := z], cur := -1)
      else
        && z.level < 3 && z.index < NPROC
        && t == Remove(s, s.cur).(procs := s.procs[s.cur := z], cur := -1)
    case Share(x, e, pass) =>
      && 0 < s.cur < NPROC && s.procs[s.cur].sched == MLFQ && s.procs[s.cur].level < 3 && s.procs[s.cur].index < NPROC
      && 1 <= x <= s.st[0].tickets - 20 && 1 <= e < NPROC && !s.st[e].used && (forall k :: 0 <= k < e ==> s.st[k].used)
      && 0 <= pass <= PASSMAX && (forall k :: 1 <= k < NPROC && s.st[k].used ==> pass <= s.st[k].pass)
      && (pass == PASSMAX || exists k :: 1 <= k < NPROC && s.st[k].used && pass == s.st[k].pass)
      && t == Joined(Remove(s, s.cur), s.cur, e, x, pass)
  }
}
