/** How many allocations the free blocks and the log have room for. */
module Capacity {
  import opened Blocks
  import opened BlockTree

  import Commit

  const ROOM := Commit.LOGSIZE - 1  // log_write panics when log.size - 1 blocks are logged, log.size being LOGSIZE (mkfs)

  ghost predicate First(free: set<nat>, f: nat) {
    f in free && forall c :: c in free ==> f <= c
  }

  ghost function Least(free: set<nat>): (f: nat)
    requires free != {}
    ensures f in free && forall c :: c in free ==> f <= c
  {
    LeastThere(free);
    var f :| f in free && forall c :: c in free ==> f <= c; f
  }

  lemma LeastThere(free: set<nat>)
    requires free != {}
    ensures exists f :: f in free && forall c :: c in free ==> f <= c
  {
    var f := FindLeast(free);
  }

  lemma {:induction false} FindLeast(free: set<nat>) returns (f: nat)
    requires free != {}
    ensures f in free && forall c :: c in free ==> f <= c
  {
    f :| f in free;
    var x, rest := f, free - {f};
    assert forall c :: c in free <==> c == x || c in rest;
    if rest != {} {
      f := FindLeast(rest);
      if x < f { f := x; }
    }
  }

  lemma IsLeast(free: set<nat>, f: nat)
    requires f in free && forall c :: c in free ==> f <= c
    ensures Least(free) == f
  {
  }

  /** What is left of the free blocks after n allocations, each of the first free block. */
  ghost function FreeAfter(free: set<nat>, n: nat): set<nat> {
    if n == 0 then free
    else var f := FreeAfter(free, n - 1); if f == {} then {} else f - {Least(f)}
  }

  /** What is logged after them: each logs a bitmap block and the block itself. */
  ghost function LogAfter(sb: Super, free: set<nat>, l: set<nat>, n: nat): set<nat> {
    if n == 0 then l
    else
      var f, k := FreeAfter(free, n - 1), LogAfter(sb, free, l, n - 1);
      if f == {} then k else k + {sb.BBlock(Least(f)), Least(f)}
  }

  /** n allocations succeed: each finds a free block, and the log still has room when its second block is logged. */
  ghost predicate CanTake(sb: Super, free: set<nat>, l: set<nat>, n: nat) {
    n == 0 ||
    (CanTake(sb, free, l, n - 1) &&
     var f, k := FreeAfter(free, n - 1), LogAfter(sb, free, l, n - 1);
     f != {} && |k| < ROOM && |k + {sb.BBlock(Least(f))}| < ROOM)
  }

  /** The same, with one more block logged afterwards. */
  ghost predicate CanFill(sb: Super, free: set<nat>, l: set<nat>, n: nat) {
    CanTake(sb, free, l, n) && |LogAfter(sb, free, l, n)| < ROOM
  }

  /** Allocations come one after the other. */
  lemma OneMore(sb: Super, free: set<nat>, l: set<nat>, n: nat)
    ensures CanTake(sb, free, l, n + 1) <==>
            CanTake(sb, free, l, n) && CanTake(sb, FreeAfter(free, n), LogAfter(sb, free, l, n), 1)
    ensures FreeAfter(free, n + 1) == FreeAfter(FreeAfter(free, n), 1)
    ensures LogAfter(sb, free, l, n + 1) == LogAfter(sb, FreeAfter(free, n), LogAfter(sb, free, l, n), 1)
  {
    var f, k := FreeAfter(free, n), LogAfter(sb, free, l, n);
    assert CanTake(sb, f, k, 0) && FreeAfter(f, 0) == f && LogAfter(sb, f, k, 0) == k;
  }

  lemma {:induction false} Fewer(sb: Super, free: set<nat>, l: set<nat>, n: nat, m: nat)
    requires CanTake(sb, free, l, m) && n <= m
    ensures CanTake(sb, free, l, n)
  {
    if n < m { Fewer(sb, free, l, n, m - 1); }
  }

  lemma AddedSize(l: set<nat>, c: nat)
    ensures |l + {c}| <= |l| + 1
  {
    if c in l { assert l + {c} == l; }
  }

  lemma NotFewer(sb: Super, free: set<nat>, l: set<nat>, n: nat, m: nat)
    requires !CanTake(sb, free, l, n) && n <= m
    ensures !CanTake(sb, free, l, m)
  {
    if CanTake(sb, free, l, m) { Fewer(sb, free, l, n, m); }
  }

  lemma NoneTaken(sb: Super, free: set<nat>, l: set<nat>)
    ensures CanTake(sb, free, l, 0) && LogAfter(sb, free, l, 0) == l
  {
  }

  lemma NoneFree(sb: Super, free: set<nat>, l: set<nat>)
    requires free == {}
    ensures !CanTake(sb, free, l, 1)
  {
    assert FreeAfter(free, 0) == free;
  }

  /** The first free block is gone, and it and its bitmap block are logged. */
  lemma TakeFirst(sb: Super, free: set<nat>, l: set<nat>, f: nat)
    requires First(free, f)
    ensures FreeAfter(free, 1) == free - {f} && LogAfter(sb, free, l, 1) == l + {sb.BBlock(f), f}
    ensures CanTake(sb, free, l, 1) <==> |l| < ROOM && |l + {sb.BBlock(f)}| < ROOM
  {
    IsLeast(free, f);
    assert FreeAfter(free, 0) == free && LogAfter(sb, free, l, 0) == l && CanTake(sb, free, l, 0);
  }

  /** What the allocations log that leave free1 of the free blocks free0. */
  ghost function NewLog(sb: Super, free0: set<nat>, free1: set<nat>): set<nat> {
    (free0 - free1) + MapsOf(sb, free0 - free1)
  }

  lemma NewLogNone(sb: Super, free: set<nat>)
    ensures NewLog(sb, free, free) == {}
  {
  }

  lemma NewLogOne(sb: Super, free: set<nat>, c: nat)
    requires c in free
    ensures NewLog(sb, free, free - {c}) == {sb.BBlock(c), c}
  {
    assert free - (free - {c}) == {c};
  }

  lemma NewLogTwice(sb: Super, free0: set<nat>, free1: set<nat>, free2: set<nat>)
    requires free2 <= free1 <= free0
    ensures NewLog(sb, free0, free2) == NewLog(sb, free0, free1) + NewLog(sb, free1, free2)
  {
    assert free0 - free2 == (free0 - free1) + (free1 - free2);
  }

  ghost function MapsOf(sb: Super, s: set<nat>): set<nat> {
    set c | c in s :: sb.BBlock(c)
  }

  /** Blocks have at most as many bitmap blocks as they are, and as there are. */
  lemma MapCount(sb: Super, s: set<nat>)
    requires forall c :: c in s ==> c < sb.size
    ensures |MapsOf(sb, s)| <= |s| && |MapsOf(sb, s)| <= sb.size / BPB + 1
  {
    ImageSize(sb, s);
    forall m | m in MapsOf(sb, s) ensures sb.bmapstart <= m < sb.bmapstart + (sb.size / BPB + 1) {
      var c :| c in s && sb.BBlock(c) == m;
      assert c / BPB <= sb.size / BPB;
    }
    SpanSize(MapsOf(sb, s), sb.bmapstart, sb.size / BPB + 1);
  }

  lemma {:induction false} ImageSize(sb: Super, s: set<nat>)
    ensures |MapsOf(sb, s)| <= |s|
  {
    if x :| x in s {
      ImageSize(sb, s - {x});
      assert MapsOf(sb, s) == MapsOf(sb, s - {x}) + {sb.BBlock(x)};
    } else {
      assert MapsOf(sb, s) == {};
    }
  }

  lemma {:induction false} SpanSize(s: set<nat>, lo: nat, n: nat)
    requires forall c :: c in s ==> lo <= c < lo + n
    ensures |s| <= n
  {
    if n == 0 {
      assert s == {};
    } else {
      SpanSize(s - {lo + n - 1}, lo, n - 1);
    }
  }

  lemma {:induction false} AllLogged(sb: Super, free: set<nat>, l: set<nat>, n: nat)
    ensures FreeAfter(free, n) <= free && LogAfter(sb, free, l, n) == l + NewLog(sb, free, FreeAfter(free, n))
  {
    hide NewLog;
    if n == 0 {
      NewLogNone(sb, free);
    } else {
      AllLogged(sb, free, l, n - 1);
      var f := FreeAfter(free, n - 1);
      if f != {} {
        NewLogOne(sb, f, Least(f));
        NewLogTwice(sb, free, f, f - {Least(f)});
      }
    }
  }

  /** k allocations lead from (free0, l0) to (free, l). */
  ghost predicate Upto(sb: Super, free0: set<nat>, l0: set<nat>, k: nat, free: set<nat>, l: set<nat>) {
    CanTake(sb, free0, l0, k) && free == FreeAfter(free0, k) && l == LogAfter(sb, free0, l0, k)
  }

  lemma UptoNone(sb: Super, free: set<nat>, l: set<nat>)
    ensures Upto(sb, free, l, 0, free, l)
  {
  }

  lemma UptoMeans(sb: Super, free0: set<nat>, l0: set<nat>, k: nat, free: set<nat>, l: set<nat>)
    requires Upto(sb, free0, l0, k, free, l)
    ensures CanTake(sb, free0, l0, k) && l == LogAfter(sb, free0, l0, k)
    ensures l == l0 + NewLog(sb, free0, free) && free <= free0
  {
    hide NewLog, CanTake;
    AllLogged(sb, free0, l0, k);
  }

  /** One slot found, or filled with block c. */
  lemma UptoStep(sb: Super, free0: set<nat>, l0: set<nat>, k: nat, free: set<nat>, l: set<nat>, taken: bool, c: nat,
                 free1: set<nat>, l1: set<nat>)
    requires Upto(sb, free0, l0, k, free, l) && (taken ==> First(free, c) && CanTake(sb, free, l, 1))
    requires free1 == free - (if taken then {c} else {}) && l1 == l + TakenSet(sb, taken, c)
    ensures Upto(sb, free0, l0, k + if taken then 1 else 0, free1, l1)
  {
    hide CanTake, FreeAfter, LogAfter;
    if taken {
      OneMore(sb, free0, l0, k);
      TakeFirst(sb, free, l, c);
    } else {
      assert free1 == free && l1 == l;
    }
  }

  lemma UptoStuck(sb: Super, free0: set<nat>, l0: set<nat>, k: nat, free: set<nat>, l: set<nat>, m: nat)
    requires Upto(sb, free0, l0, k, free, l) && !CanTake(sb, free, l, 1) && k < m
    ensures !CanTake(sb, free0, l0, m)
  {
    hide CanTake, FreeAfter, LogAfter;
    OneMore(sb, free0, l0, k);
    if CanTake(sb, free0, l0, m) { Fewer(sb, free0, l0, k + 1, m); }
  }
}
