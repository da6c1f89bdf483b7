/** The K&R allocator of umalloc.c; addresses and sizes are in units of one Header (8 bytes). */
module Heap {
  datatype Header = Header(ptr: int, size: nat)

  datatype Blk = Blk(addr: int, size: nat) {
    function End(): int { addr + size }
  }

  ghost predicate In(b: Blk, x: int) {
    b.addr <= x < b.End()
  }

  ghost predicate Apart(b: Blk, c: Blk) {
    b.End() <= c.addr || c.End() <= b.addr
  }

  /* ---------- The free list as a value: base first, then by address ---------- */

  /** Unit x belongs to one of the blocks. */
  ghost predicate Covers(f: seq<Blk>, x: int) {
    exists i :: 0 <= i < |f| && In(f[i], x)
  }

  /** Base, which holds no units, comes first; no other block is empty. */
  ghost predicate Filled(f: seq<Blk>) {
    |f| >= 1 && f[0].size == 0 && forall i :: 1 <= i < |f| ==> f[i].size > 0
  }

  /** f[i] lies above its predecessor without touching it. */
  ghost predicate Gap(f: seq<Blk>, i: nat) {
    1 <= i < |f| && f[i - 1].End() < f[i].addr
  }

  ghost predicate Touch(f: seq<Blk>, i: nat) {
    1 <= i < |f| && f[i - 1].End() == f[i].addr
  }

  /** In address order from base on, and no two blocks touch. */
  ghost predicate Sorted(f: seq<Blk>) {
    Filled(f) && forall i {:trigger Gap(f, i)} :: 1 <= i < |f| ==> Gap(f, i)
  }

  lemma {:induction false} Above(f: seq<Blk>, i: nat, j: nat)
    requires Sorted(f) && i < j < |f|
    ensures f[i].End() < f[j].addr
    decreases j - i
  {
    assert Gap(f, j);
    if i < j - 1 { Above(f, i, j - 1); }
  }

  ghost function After(f: seq<Blk>, i: nat): (j: nat)
    requires i < |f|
    ensures j < |f|
  {
    if i + 1 < |f| then i + 1 else 0
  }

  ghost predicate Linked(mem: map<int, Header>, f: seq<Blk>, i: nat) {
    i < |f| && f[i].addr in mem && mem[f[i].addr] == Header(f[After(f, i)].addr, f[i].size)
  }

  /** Memory holds f as a circular list: the only link that goes down is the one back to base. */
  ghost predicate Ring(mem: map<int, Header>, f: seq<Blk>) {
    forall i {:trigger Linked(mem, f, i)} :: 0 <= i < |f| ==> Linked(mem, f, i)
  }

  /** Two lists without touching blocks that cover the same units are the same list. */
  lemma Canonical(f: seq<Blk>, g: seq<Blk>)
    requires Sorted(f) && Sorted(g) && f[0] == g[0]
    requires forall x :: Covers(f, x) <==> Covers(g, x)
    ensures f == g
  {
    SameTo(f, g, |f|);
    SameTo(g, f, |g|);
    assert f == f[..|f|] && g == g[..|g|];
  }

  lemma {:induction false} SameTo(f: seq<Blk>, g: seq<Blk>, n: nat)
    requires Sorted(f) && Sorted(g) && f[0] == g[0] && 1 <= n <= |f|
    requires forall x :: Covers(f, x) <==> Covers(g, x)
    ensures n <= |g| && f[..n] == g[..n]
  {
    if n > 1 {
      SameTo(f, g, n - 1);
      forall j | 0 <= j < n - 1 ensures f[j] == g[j] {
        assert f[..n - 1][j] == g[..n - 1][j];
      }
      StartsAt(f, g, n - 1);
      StartsAt(g, f, n - 1);
      EndsAt(f, g, n - 1);
      EndsAt(g, f, n - 1);
      assert f[..n] == f[..n - 1] + [f[n - 1]] && g[..n] == g[..n - 1] + [g[n - 1]];
    }
  }

  lemma StartsAt(f: seq<Blk>, g: seq<Blk>, i: nat)
    requires Sorted(f) && Sorted(g) && 1 <= i < |f| && i <= |g|
    requires forall j :: 0 <= j < i ==> f[j] == g[j]
    requires forall x :: Covers(f, x) <==> Covers(g, x)
    ensures i < |g| && g[i].addr <= f[i].addr
  {
    var x := f[i].addr;
    assert In(f[i], x) && Covers(f, x);
    var j :| 0 <= j < |g| && In(g[j], x);
    if j < i { Above(f, j, i); }
    if j > i { Above(g, i, j); }
  }

  lemma EndsAt(f: seq<Blk>, g: seq<Blk>, i: nat)
    requires Sorted(f) && Sorted(g) && 1 <= i < |f| && i < |g| && f[i].addr == g[i].addr
    requires forall x :: Covers(f, x) <==> Covers(g, x)
    ensures f[i].size <= g[i].size
  {
    if g[i].size < f[i].size {
      var x := g[i].End();
      assert In(f[i], x) && Covers(f, x);
      var j :| 0 <= j < |g| && In(g[j], x);
      if j < i { Above(g, j, i); }
      if j > i { Above(g, i, j); }
    }
  }

  /* ---------- Giving a block back ---------- */

  /** b belongs behind f[t]. */
  ghost predicate Fits(f: seq<Blk>, t: nat, b: Blk) {
    && t < |f| && b.size > 0 && f[t].addr < b.addr && f[t].End() <= b.addr
    && (t + 1 < |f| ==> b.End() <= f[t + 1].addr)
  }

  ghost function Insert(f: seq<Blk>, t: nat, b: Blk): seq<Blk>
    requires t < |f|
  {
    f[..t + 1] + [b] + f[t + 1..]
  }

  /** Block i swallows the one behind it. */
  ghost function Join(f: seq<Blk>, i: nat): seq<Blk>
    requires i + 1 < |f|
  {
    f[..i] + [Blk(f[i].addr, f[i].size + f[i + 1].size)] + f[i + 2..]
  }

  /** free, once it has found that b belongs behind f[t]: coalesce upwards, then downwards. */
  ghost function Give(f: seq<Blk>, t: nat, b: Blk): seq<Blk>
    requires t < |f|
  {
    if f[t].End() == b.addr then Join(Upper(f, t, b), t) else Upper(f, t, b)
  }

  ghost function Upper(f: seq<Blk>, t: nat, b: Blk): (h: seq<Blk>)
    requires t < |f|
    ensures |h| >= t + 2
  {
    var g := Insert(f, t, b);
    if Touch(g, t + 2) then Join(g, t + 1) else g
  }

  lemma InsertAt(f: seq<Blk>, t: nat, b: Blk)
    requires t < |f|
    ensures |Insert(f, t, b)| == |f| + 1
    ensures forall i {:trigger Insert(f, t, b)[i]} :: 0 <= i < |f| + 1 ==> Insert(f, t, b)[i] == if i <= t then f[i] else if i == t + 1 then b else f[i - 1]
  {
  }

  lemma JoinAt(f: seq<Blk>, i: nat)
    requires i + 1 < |f|
    ensures |Join(f, i)| == |f| - 1
    ensures forall j {:trigger Join(f, i)[j]} :: 0 <= j < |f| - 1 ==>
      Join(f, i)[j] == if j < i then f[j] else if j == i then Blk(f[i].addr, f[i].size + f[i + 1].size) else f[j + 1]
  {
  }

  lemma InsertCovers(f: seq<Blk>, t: nat, b: Blk, x: int)
    requires t < |f|
    ensures Covers(Insert(f, t, b), x) <==> Covers(f, x) || In(b, x)
  {
    var g := Insert(f, t, b);
    assert g[t + 1] == b;
    forall i | 0 <= i < |f| ensures In(f[i], x) ==> Covers(g, x) {
      assert f[i] == g[if i <= t then i else i + 1];
    }
    forall i | 0 <= i < |g| ensures In(g[i], x) ==> Covers(f, x) || In(b, x) {
      assert g[i] == if i <= t then f[i] else if i == t + 1 then b else f[i - 1];
    }
  }

  lemma JoinCovers(f: seq<Blk>, i: nat, x: int)
    requires Touch(f, i + 1)
    ensures Covers(Join(f, i), x) <==> Covers(f, x)
  {
    var g := Join(f, i);
    assert g[i] == Blk(f[i].addr, f[i].size + f[i + 1].size);
    forall j | 0 <= j < |f| && In(f[j], x) ensures Covers(g, x) {
      assert In(g[if j <= i then j else j - 1], x);
    }
    forall j | 0 <= j < |g| && In(g[j], x) ensures Covers(f, x) {
      if j == i { assert In(f[i], x) || In(f[i + 1], x); }
      else { assert In(f[if j < i then j else j + 1], x); }
    }
  }

  /** The list stays sorted without touching blocks. */
  lemma GiveSorted(f: seq<Blk>, t: nat, b: Blk)
    requires Sorted(f) && Fits(f, t, b)
    ensures Sorted(Give(f, t, b)) && Give(f, t, b)[0] == f[0]
  {
    hide Insert, Join, Sorted;
    var g := Insert(f, t, b);
    InsertGaps(f, t, b);
    InsertAt(f, t, b);
    var h := Upper(f, t, b);
    assert GapsBut(h, {t + 1}) && h[t] == f[t] && h[t + 1].addr == b.addr by {
      if Touch(g, t + 2) { JoinGaps(g, t + 1, {t + 1}); JoinAt(g, t + 1); } else { Close(g, t + 2, {t + 1}); }
    }
    if f[t].End() == b.addr { JoinGaps(h, t, {}); JoinAt(h, t); } else { Close(h, t + 1, {}); }
    assert h[0] == f[0] by {
      if Touch(g, t + 2) { JoinAt(g, t + 1); }
    }
    AllGaps(Give(f, t, b));
  }

  /** Gaps everywhere but at the given places. */
  ghost predicate GapsBut(f: seq<Blk>, open: set<nat>) {
    Filled(f) && forall i {:trigger Gap(f, i)} :: 1 <= i < |f| && i !in open ==> Gap(f, i)
  }

  lemma AllGaps(f: seq<Blk>)
    requires GapsBut(f, {})
    ensures Sorted(f)
  {
  }

  lemma InsertGaps(f: seq<Blk>, t: nat, b: Blk)
    requires Sorted(f) && Fits(f, t, b)
    ensures GapsBut(Insert(f, t, b), {t + 1, t + 2})
  {
    InsertAt(f, t, b);
    var g := Insert(f, t, b);
    forall i | 1 <= i < |g| && i !in {t + 1, t + 2} ensures Gap(g, i) {
      assert Gap(f, if i <= t then i else i - 1);
    }
  }

  lemma Close(f: seq<Blk>, i: nat, open: set<nat>)
    requires GapsBut(f, open + {i}) && (1 <= i < |f| ==> Gap(f, i))
    ensures GapsBut(f, open)
  {
  }

  lemma JoinGaps(f: seq<Blk>, i: nat, open: set<nat>)
    requires GapsBut(f, open + {i + 1}) && Touch(f, i + 1) && i > 0 && forall j :: j in open ==> j <= i
    ensures GapsBut(Join(f, i), open)
  {
    JoinAt(f, i);
    var g := Join(f, i);
    forall j | 1 <= j < |g| && j !in open ensures Gap(g, j) {
      assert Gap(f, if j <= i then j else j + 1);
    }
  }

  lemma GiveCovers(f: seq<Blk>, t: nat, b: Blk, x: int)
    requires t < |f|
    ensures Covers(Give(f, t, b), x) <==> Covers(f, x) || In(b, x)
  {
    hide Insert, Join, Covers;
    var g, h := Insert(f, t, b), Upper(f, t, b);
    InsertCovers(f, t, b, x);
    InsertAt(f, t, b);
    if Touch(g, t + 2) { JoinCovers(g, t + 1, x); JoinAt(g, t + 1); }
    if f[t].End() == b.addr { JoinCovers(h, t, x); }
  }

  /* ---------- Taking a block ---------- */

  /** malloc takes the tail of f[i], or all of it. */
  ghost function Take(f: seq<Blk>, i: nat, n: nat): seq<Blk>
    requires i < |f| && n <= f[i].size
  {
    if f[i].size == n then f[..i] + f[i + 1..] else f[i := Blk(f[i].addr, f[i].size - n)]
  }

  lemma TakeAt(f: seq<Blk>, i: nat, n: nat)
    requires 1 <= i < |f| && 0 < n <= f[i].size
    ensures var m := if f[i].size == n then 1 else 0;
      && |Take(f, i, n)| == |f| - m
      && forall j {:trigger Take(f, i, n)[j]} :: 0 <= j < |f| - m ==>
        Take(f, i, n)[j] == if j < i then f[j] else if j == i && m == 0 then Blk(f[i].addr, f[i].size - n) else f[j + m]
  {
  }

  lemma TakeSorted(f: seq<Blk>, i: nat, n: nat)
    requires Sorted(f) && 1 <= i < |f| && 0 < n <= f[i].size
    ensures Sorted(Take(f, i, n)) && Take(f, i, n)[0] == f[0]
  {
    hide Take;
    TakeAt(f, i, n);
    var g := Take(f, i, n);
    var m := if f[i].size == n then 1 else 0;
    forall j | 1 <= j < |g| ensures Gap(g, j) {
      if j == i && m == 1 { Above(f, i - 1, i + 1); } else { assert Gap(f, if j < i then j else j + m); }
    }
  }

  lemma TakeCovers(f: seq<Blk>, i: nat, n: nat, x: int)
    requires Sorted(f) && 1 <= i < |f| && 0 < n <= f[i].size
    ensures Covers(Take(f, i, n), x) <==> Covers(f, x) && !In(Blk(f[i].End() - n, n), x)
  {
    hide Take;
    TakeAt(f, i, n);
    var g := Take(f, i, n);
    var m := if f[i].size == n then 1 else 0;
    forall j | 0 <= j < |f| && In(f[j], x) && !In(Blk(f[i].End() - n, n), x) ensures Covers(g, x) {
      assert In(g[if j <= i then j else j - m], x);
    }
    forall j | 0 <= j < |g| && In(g[j], x) ensures Covers(f, x) && !In(Blk(f[i].End() - n, n), x) {
      var k := if j < i then j else j + m;
      assert In(f[k], x);
      if k < i { Above(f, k, i); }
      if k > i { Above(f, i, k); }
    }
  }

  /* ---------- The list in memory ---------- */

  ghost predicate Higher(f: seq<Blk>, i: nat, j: nat) {
    i < j < |f| && f[i].addr < f[j].addr
  }

  ghost predicate Rising(f: seq<Blk>) {
    forall i, j {:trigger Higher(f, i, j)} :: 0 <= i < j < |f| ==> Higher(f, i, j)
  }

  lemma SortedRises(f: seq<Blk>)
    requires Sorted(f)
    ensures Rising(f)
  {
    forall i, j | 0 <= i < j < |f| ensures Higher(f, i, j) {
      Above(f, i, j);
    }
  }

  lemma InsertRises(f: seq<Blk>, t: nat, b: Blk)
    requires Rising(f) && t < |f| && f[t].addr < b.addr && (t + 1 < |f| ==> b.addr < f[t + 1].addr)
    ensures Rising(Insert(f, t, b))
  {
    hide Insert;
    InsertAt(f, t, b);
    var g := Insert(f, t, b);
    forall i, j | 0 <= i < j < |g| ensures Higher(g, i, j) {
      assert i < t ==> Higher(f, i, t);
      assert t + 2 < j ==> Higher(f, t + 1, j - 1);
      var k, l := if i <= t then i else i - 1, if j <= t then j else j - 1;
      assert i != t + 1 && j != t + 1 ==> Higher(f, k, l);
    }
  }

  lemma Write(mem: map<int, Header>, f: seq<Blk>, i: nat, h: Header, j: nat)
    requires Rising(f) && Linked(mem, f, j) && i < |f| && i != j
    ensures Linked(mem[f[i].addr := h], f, j)
  {
    assert Higher(f, if i < j then i else j, if i < j then j else i);
  }

  lemma RingInsert(mem: map<int, Header>, f: seq<Blk>, t: nat, b: Blk)
    requires Rising(f) && Ring(mem, f) && t < |f| && f[t].addr < b.addr && (t + 1 < |f| ==> b.addr < f[t + 1].addr)
    ensures Ring(mem[b.addr := Header(f[After(f, t)].addr, b.size)][f[t].addr := Header(b.addr, f[t].size)], Insert(f, t, b))
  {
    hide Insert, Ring;
    InsertAt(f, t, b);
    InsertRises(f, t, b);
    var g := Insert(f, t, b);
    var m := mem[b.addr := Header(f[After(f, t)].addr, b.size)][f[t].addr := Header(b.addr, f[t].size)];
    forall i | 0 <= i < |g| ensures Linked(m, g, i) {
      if i != t && i != t + 1 {
        var k := if i <= t then i else i - 1;
        RingAt(mem, f, k);
        assert Higher(g, if i < t then i else t, if i < t then t else i);
        assert Higher(g, if i < t then i else t + 1, if i < t then t + 1 else i);
      } else {
        assert Higher(g, t, t + 1);
      }
    }
    IsRing(m, g);
  }

  lemma JoinRises(f: seq<Blk>, i: nat)
    requires Rising(f) && i + 1 < |f|
    ensures Rising(Join(f, i))
  {
    hide Join;
    JoinAt(f, i);
    var g := Join(f, i);
    forall j, k | 0 <= j < k < |g| ensures Higher(g, j, k) {
      assert Higher(f, if j <= i then j else j + 1, if k <= i then k else k + 1);
    }
  }

  lemma RingJoin(mem: map<int, Header>, f: seq<Blk>, i: nat)
    requires Rising(f) && Ring(mem, f) && i + 1 < |f|
    ensures Ring(mem[f[i].addr := Header(f[After(f, i + 1)].addr, f[i].size + f[i + 1].size)], Join(f, i))
  {
    hide Join, Ring;
    JoinAt(f, i);
    JoinRises(f, i);
    var g := Join(f, i);
    var m := mem[f[i].addr := Header(f[After(f, i + 1)].addr, f[i].size + f[i + 1].size)];
    forall j | 0 <= j < |g| ensures Linked(m, g, j) {
      RingAt(mem, f, if j <= i then j else j + 1);
      if j != i { assert Higher(g, if j < i then j else i, if j < i then i else j); }
    }
    IsRing(m, g);
  }

  /** The two links that free writes, whichever neighbours it joins. */
  lemma RingGive(mem: map<int, Header>, f: seq<Blk>, t: nat, b: Blk)
    requires Sorted(f) && Ring(mem, f) && Fits(f, t, b) && f[0].addr < b.addr
    ensures var p, next := f[t], f[After(f, t)];
            var up := b.End() == next.addr;
            var bh := if up then Header(f[After(f, After(f, t))].addr, b.size + next.size) else Header(next.addr, b.size);
            var ph := if p.End() == b.addr then Header(bh.ptr, p.size + bh.size) else Header(b.addr, p.size);
            Ring(mem[b.addr := bh][p.addr := ph], Give(f, t, b))
    ensures exists i :: 0 <= i < |Give(f, t, b)| && Give(f, t, b)[i].addr == f[t].addr
    ensures exists i :: 0 <= i < |Give(f, t, b)| && b.size <= Give(f, t, b)[i].size
  {
    hide Insert, Join, Ring, Sorted, Rising;
    SortedRises(f);
    InsertAt(f, t, b);
    InsertRises(f, t, b);
    RingInsert(mem, f, t, b);
    RingAt(mem, f, After(f, t));
    var p, next := f[t], f[After(f, t)];
    var g := Insert(f, t, b);
    var m := mem[b.addr := Header(next.addr, b.size)][p.addr := Header(b.addr, p.size)];
    var h, mh := g, m;
    if b.End() == next.addr {
      RingJoin(m, g, t + 1);
      JoinRises(g, t + 1);
      JoinAt(g, t + 1);
      h := Join(g, t + 1);
      mh := m[b.addr := Header(g[After(g, t + 2)].addr, b.size + next.size)];
    }
    assert h == Upper(f, t, b) && h[t] == p && h[t + 1].addr == b.addr;
    var bh := if b.End() == next.addr then Header(f[After(f, After(f, t))].addr, b.size + next.size) else Header(next.addr, b.size);
    assert h[t + 1].size == bh.size && h[After(h, t + 1)].addr == bh.ptr;
    assert mh == mem[b.addr := bh][p.addr := Header(b.addr, p.size)];
    if p.End() == b.addr {
      assert mh[p.addr := Header(bh.ptr, p.size + bh.size)] == mem[b.addr := bh][p.addr := Header(bh.ptr, p.size + bh.size)];
      RingJoin(mh, h, t);
      JoinAt(h, t);
      assert Give(f, t, b)[t].addr == p.addr;
    }
  }

  lemma RingAt(mem: map<int, Header>, f: seq<Blk>, i: nat)
    requires Ring(mem, f) && i < |f|
    ensures Linked(mem, f, i)
  {
  }

  lemma IsRing(mem: map<int, Header>, f: seq<Blk>)
    requires forall i {:trigger Linked(mem, f, i)} :: 0 <= i < |f| ==> Linked(mem, f, i)
    ensures Ring(mem, f)
  {
  }

  lemma RingTake(mem: map<int, Header>, f: seq<Blk>, i: nat, n: nat, junk: int)
    requires Sorted(f) && Ring(mem, f) && 1 <= i < |f| && 0 < n <= f[i].size
    ensures var p := f[i].End() - n;
            var m := if f[i].size == n then mem[f[i - 1].addr := Header(f[After(f, i)].addr, f[i - 1].size)]
                     else mem[f[i].addr := Header(f[After(f, i)].addr, f[i].size - n)][p := Header(junk, n)];
            Ring(m, Take(f, i, n))
    ensures exists j :: 0 <= j < |Take(f, i, n)| && Take(f, i, n)[j].addr == f[i - 1].addr
  {
    hide Take, Sorted, Ring;
    TakeAt(f, i, n);
    SortedRises(f);
    TakeSorted(f, i, n);
    SortedRises(Take(f, i, n));
    var g := Take(f, i, n);
    assert g[i - 1].addr == f[i - 1].addr;
    var p := f[i].End() - n;
    if f[i].size == n {
      var m := mem[f[i - 1].addr := Header(f[After(f, i)].addr, f[i - 1].size)];
      forall j | 0 <= j < |g| ensures Linked(m, g, j) {
        var k := if j < i then j else j + 1;
        RingAt(mem, f, k);
        if k != i - 1 { assert Higher(f, if k < i then k else i - 1, if k < i then i - 1 else k); }
      }
      IsRing(m, g);
    } else {
      var m := mem[f[i].addr := Header(f[After(f, i)].addr, f[i].size - n)][p := Header(junk, n)];
      forall j | 0 <= j < |g| ensures Linked(m, g, j) {
        RingAt(mem, f, j);
        if j > i { Above(f, i, j); }
        if j < i { assert Higher(f, j, i); }
      }
      IsRing(m, g);
    }
  }

  /* ---------- Who holds which unit ---------- */

  ghost predicate Held(live: map<int, nat>, a: int, x: int) {
    a in live && In(Blk(a, live[a]), x)
  }

  ghost predicate Used(live: map<int, nat>, x: int) {
    exists a :: Held(live, a, x)
  }

  /** No unit is in two live blocks. */
  ghost predicate Single(live: map<int, nat>) {
    forall a, b, x :: Held(live, a, x) && Held(live, b, x) ==> a == b
  }

  /** Every unit taken in is in exactly one block, free or allocated, and no free blocks touch. */
  ghost predicate Sound(free: seq<Blk>, live: map<int, nat>, chunks: seq<Blk>, base: int) {
    && Sorted(free) && free[0] == Blk(base, 0)
    && (forall a :: a in live ==> live[a] > 0)
    && (forall x :: Covers(chunks, x) ==> base < x)
    && (forall x :: Covers(chunks, x) <==> Covers(free, x) || Used(live, x))
    && (forall x :: !(Covers(free, x) && Used(live, x)))
    && Single(live)
  }

  /** What is allocated determines the whole free list: freeing a block undoes its malloc, in any order. */
  lemma SameHeap(f: seq<Blk>, g: seq<Blk>, live: map<int, nat>, chunks: seq<Blk>, base: int)
    requires Sound(f, live, chunks, base) && Sound(g, live, chunks, base)
    ensures f == g
  {
    hide Sorted;
    forall x ensures Covers(f, x) <==> Covers(g, x) {}
    Canonical(f, g);
  }

  lemma FindPlace(f: seq<Blk>, a: int) returns (t: nat)
    requires Sorted(f) && f[0].addr < a
    ensures t < |f| && f[t].addr < a && (t + 1 < |f| ==> a <= f[t + 1].addr)
  {
    t := 0;
    while t + 1 < |f| && f[t + 1].addr < a
      invariant t < |f| && f[t].addr < a
    {
      t := t + 1;
    }
  }

  lemma HeldFits(free: seq<Blk>, live: map<int, nat>, chunks: seq<Blk>, base: int, t: nat, bp: int)
    requires Sound(free, live, chunks, base) && bp in live
    requires t < |free| && free[t].addr < bp && (t + 1 < |free| ==> bp <= free[t + 1].addr)
    ensures Fits(free, t, Blk(bp, live[bp])) && (t + 1 < |free| ==> bp < free[t + 1].addr)
  {
    assert Held(live, bp, bp) && Used(live, bp);
    if free[t].End() > bp { assert In(free[t], bp) && Covers(free, bp); }
    if t + 1 < |free| && free[t + 1].addr < bp + live[bp] {
      assert In(free[t + 1], free[t + 1].addr) && Covers(free, free[t + 1].addr);
      assert Held(live, bp, free[t + 1].addr);
    }
  }

  lemma HeldAbove(free: seq<Blk>, live: map<int, nat>, chunks: seq<Blk>, base: int, bp: int)
    requires Sound(free, live, chunks, base) && bp in live
    ensures base < bp && Sorted(free) && free[0] == Blk(base, 0)
  {
    assert Held(live, bp, bp) && Used(live, bp);
  }

  lemma GiveSound(free: seq<Blk>, live: map<int, nat>, chunks: seq<Blk>, base: int, t: nat, bp: int)
    requires Sound(free, live, chunks, base) && bp in live && Fits(free, t, Blk(bp, live[bp]))
    ensures Sound(Give(free, t, Blk(bp, live[bp])), live - {bp}, chunks, base)
  {
    hide Give, Covers, Sorted;
    var b := Blk(bp, live[bp]);
    var f, l := Give(free, t, b), live - {bp};
    GiveSorted(free, t, b);
    forall x ensures Covers(f, x) <==> Covers(free, x) || In(b, x) { GiveCovers(free, t, b, x); }
    forall x ensures Used(live, x) <==> Used(l, x) || In(b, x) { Without(live, bp, x); }
    forall a, x | Held(l, a, x) ensures Held(live, a, x) {}
    forall x ensures In(b, x) ==> Held(live, bp, x) {}
  }

  lemma Without(live: map<int, nat>, bp: int, x: int)
    requires bp in live
    ensures Used(live, x) <==> Used(live - {bp}, x) || In(Blk(bp, live[bp]), x)
  {
    if Used(live, x) {
      var a :| Held(live, a, x);
      assert a != bp ==> Held(live - {bp}, a, x);
    }
    if Used(live - {bp}, x) {
      var a :| Held(live - {bp}, a, x);
      assert Held(live, a, x);
    }
    if In(Blk(bp, live[bp]), x) { assert Held(live, bp, x); }
  }

  lemma With(live: map<int, nat>, bp: int, n: nat, x: int)
    requires bp !in live
    ensures Used(live[bp := n], x) <==> Used(live, x) || In(Blk(bp, n), x)
  {
    assert live[bp := n] - {bp} == live;
    Without(live[bp := n], bp, x);
  }

  /** The live blocks stay apart when one is added whose units nobody holds. */
  lemma AddHeld(live: map<int, nat>, bp: int, n: nat)
    requires bp !in live
    requires forall x :: !(In(Blk(bp, n), x) && Used(live, x))
    requires Single(live)
    ensures Single(live[bp := n])
  {
    var l := live[bp := n];
    forall a, b, x | Held(l, a, x) && Held(l, b, x) ensures a == b {
      assert a != bp ==> Held(live, a, x) && Used(live, x);
      assert b != bp ==> Held(live, b, x) && Used(live, x);
    }
  }

  lemma TakeSound(free: seq<Blk>, live: map<int, nat>, chunks: seq<Blk>, base: int, i: nat, n: nat)
    requires Sound(free, live, chunks, base) && 1 <= i < |free| && 0 < n <= free[i].size
    ensures free[i].End() - n !in live
    ensures Sound(Take(free, i, n), live[free[i].End() - n := n], chunks, base)
  {
    hide Take, Sorted;
    var p := free[i].End() - n;
    var b, f, l := Blk(p, n), Take(free, i, n), live[p := n];
    forall x | In(b, x) ensures Covers(free, x) && !Used(live, x) {
      assert In(free[i], x);
    }
    assert In(b, p);
    assert p in live ==> Held(live, p, p);
    TakeSorted(free, i, n);
    AddHeld(live, p, n);
    forall x
      ensures Covers(f, x) <==> Covers(free, x) && !In(b, x)
      ensures Used(l, x) <==> Used(live, x) || In(b, x)
    {
      TakeCovers(free, i, n, x);
      With(live, p, n, x);
    }
    SoundTake(free, f, live, l, chunks, base, b);
  }

  lemma SoundTake(free: seq<Blk>, f: seq<Blk>, live: map<int, nat>, l: map<int, nat>, chunks: seq<Blk>, base: int, b: Blk)
    requires Sound(free, live, chunks, base) && Sorted(f) && f[0] == free[0]
    requires forall x :: In(b, x) ==> Covers(free, x)
    requires forall x :: Covers(f, x) <==> Covers(free, x) && !In(b, x)
    requires forall x :: Used(l, x) <==> Used(live, x) || In(b, x)
    requires forall a :: a in l ==> l[a] > 0
    requires Single(l)
    ensures Sound(f, l, chunks, base)
  {
    hide Covers, Used, Held, Sorted;
  }

  lemma GrowSound(free: seq<Blk>, live: map<int, nat>, chunks: seq<Blk>, base: int, at: int, n: nat)
    requires Sound(free, live, chunks, base) && base < at && n > 0
    requires forall x :: Covers(chunks, x) ==> x < at
    ensures at !in live && Sound(free, live[at := n], chunks + [Blk(at, n)], base)
  {
    hide Sorted;
    var b := Blk(at, n);
    assert at in live ==> Held(live, at, at) && Used(live, at);
    AddHeld(live, at, n);
    forall x
      ensures Covers(chunks + [b], x) <==> Covers(chunks, x) || In(b, x)
      ensures Used(live[at := n], x) <==> Used(live, x) || In(b, x)
    {
      With(live, at, n, x);
      assert (chunks + [b])[|chunks|] == b;
      assert forall i :: 0 <= i < |chunks| ==> (chunks + [b])[i] == chunks[i];
    }
    SoundGrow(free, live, live[at := n], chunks, chunks + [b], base, b);
  }

  lemma SoundGrow(free: seq<Blk>, live: map<int, nat>, l: map<int, nat>, chunks: seq<Blk>, more: seq<Blk>, base: int, b: Blk)
    requires Sound(free, live, chunks, base) && base < b.addr
    requires forall x :: Covers(chunks, x) ==> x < b.addr
    requires forall x :: Covers(more, x) <==> Covers(chunks, x) || In(b, x)
    requires forall x :: Used(l, x) <==> Used(live, x) || In(b, x)
    requires forall a :: a in l ==> l[a] > 0
    requires Single(l)
    ensures Sound(free, l, more, base)
  {
    hide Covers, Used, Held, Sorted;
  }

  /** Each live block's header tells its size. */
  ghost predicate Heads(mem: map<int, Header>, live: map<int, nat>) {
    forall a :: a in live ==> a in mem && mem[a].size == live[a]
  }

  /** What a program may keep in memory: everything behind the headers of its own blocks. */
  ghost predicate Payload(live: map<int, nat>, x: int) {
    exists a :: Held(live, a, x) && x != a
  }

  ghost predicate Same(m: map<int, Header>, n: map<int, Header>, x: int) {
    (x in m <==> x in n) && (x in m ==> m[x] == n[x])
  }

  ghost predicate SamePayload(m: map<int, Header>, n: map<int, Header>, live: map<int, nat>) {
    forall x :: Payload(live, x) ==> Same(m, n, x)
  }

  lemma SameTrans(m: map<int, Header>, n: map<int, Header>, y: int, h: Header, live: map<int, nat>)
    requires SamePayload(m, n, live) && !Payload(live, y)
    ensures SamePayload(m, n[y := h], live)
  {
  }

  /** The headers of free blocks, and of a block being freed, are nobody's payload. */
  lemma FreeHeader(free: seq<Blk>, live: map<int, nat>, chunks: seq<Blk>, base: int, i: nat)
    requires Sound(free, live, chunks, base) && i < |free|
    ensures !Used(live, free[i].addr)
  {
    if i > 0 { assert In(free[i], free[i].addr); }
  }

  lemma OwnHeader(live: map<int, nat>, bp: int)
    requires Single(live) && bp in live && live[bp] > 0
    ensures !Payload(live - {bp}, bp) && !Payload(live, bp)
  {
    assert Held(live, bp, bp);
    forall a | Held(live - {bp}, a, bp) ensures Held(live, a, bp) {}
  }

  lemma FewerPayloads(live: map<int, nat>, bp: int, x: int)
    ensures Payload(live - {bp}, x) ==> Payload(live, x) && Used(live, x)
  {
    if Payload(live - {bp}, x) {
      var a :| Held(live - {bp}, a, x) && x != a;
      assert Held(live, a, x);
    }
  }

  /** free writes to two headers only, neither of them payload. */
  lemma FreePayload(m: map<int, Header>, free: seq<Blk>, live: map<int, nat>, chunks: seq<Blk>, base: int, bp: int, t: nat, bh: Header, ph: Header)
    requires Sound(free, live, chunks, base) && bp in live && t < |free|
    ensures SamePayload(m, m[bp := bh][free[t].addr := ph], live - {bp})
    ensures Heads(m, live) ==> Heads(m[bp := bh][free[t].addr := ph], live - {bp})
  {
    OwnHeader(live, bp);
    FreeHeader(free, live, chunks, base, t);
    FewerPayloads(live, bp, free[t].addr);
    SameTrans(m, m, bp, bh, live - {bp});
    SameTrans(m, m[bp := bh], free[t].addr, ph, live - {bp});
    forall a | a in live ensures Held(live, a, a) {}
  }

  /** The number of units malloc looks for, in 32-bit arithmetic. */
  function Nunits(nbytes: nat): (n: nat)
    requires nbytes < 0x1_0000_0000
    ensures n >= 1
  {
    (nbytes + 7) % 0x1_0000_0000 / 8 + 1
  }

  /** They hold the bytes asked for, after the header, unless the rounding up wraps around. */
  lemma NunitsEnough(nbytes: nat)
    requires nbytes < 0x1_0000_0000
    ensures 8 * (Nunits(nbytes) - 1) >= nbytes <==> nbytes <= 0x1_0000_0000 - 8
    ensures 8 * (Nunits(nbytes) - 1) < nbytes + 8
  {
    if nbytes + 7 < 0x1_0000_0000 {
      assert (nbytes + 7) % 0x1_0000_0000 == nbytes + 7;
    } else {
      assert (nbytes + 7) % 0x1_0000_0000 == nbytes + 7 - 0x1_0000_0000;
    }
  }

  /** Every larger request, 2^32 - 1 for one, is rounded up to the header alone. */
  lemma NoPayload(nbytes: nat)
    requires 0x1_0000_0000 - 8 < nbytes < 0x1_0000_0000
    ensures Nunits(nbytes) == Nunits(0xFFFF_FFFF) == 1
  {
    assert (nbytes + 7) % 0x1_0000_0000 == nbytes + 7 - 0x1_0000_0000;
  }

  /** What sbrk is asked for in bytes: an unsigned product that it takes as a signed number. */
  function Bytes(units: nat): nat {
    8 * units % 0x1_0000_0000
  }

  /** It is not the size of the units, or it is negative, for these requests and no others; 2^31 is one. */
  lemma StrayBytes(nbytes: nat)
    requires nbytes < 0x1_0000_0000
    ensures 0x8000_0000 - 16 < nbytes <= 0x1_0000_0000 - 8 <==> 8 * Nunits(nbytes) >= KERNBASE
    ensures 8 * Nunits(nbytes) <= 0x1_0000_0000
  {
    if nbytes + 7 < 0x1_0000_0000 {
      assert (nbytes + 7) % 0x1_0000_0000 == nbytes + 7;
    } else {
      assert (nbytes + 7) % 0x1_0000_0000 == nbytes + 7 - 0x1_0000_0000;
    }
  }

  /** sbrk returns -1: the memory cannot grow that far, or there is no room, or all of it would go. */
  predicate Refused(bytes: nat, brk: nat, room: bool) {
    if bytes < 0x8000_0000 then bytes > 0 && (8 * brk + bytes >= KERNBASE || !room)
    else 8 * brk + bytes == 0x1_0000_0000
  }

  /** Units that lie one after the other in the list lie in one of its blocks. */
  lemma RunInBlock(f: seq<Blk>, a: int, n: nat)
    requires Sorted(f) && n > 0 && forall x :: In(Blk(a, n), x) ==> Covers(f, x)
    ensures Big(f, n)
  {
    assert In(Blk(a, n), a);
    var i :| 0 <= i < |f| && In(f[i], a);
    if f[i].End() < a + n {
      var x := f[i].End();
      assert In(Blk(a, n), x);
      var j :| 0 <= j < |f| && In(f[j], x);
      if i < j { Above(f, i, j); }
      if j < i { Above(f, j, i); }
    }
  }

  /** The test that ends the search of free: bp lies in the gap behind p, or beyond the end of the list. */
  predicate Stops(p: int, next: int, bp: int) {
    (bp > p && bp < next) || (p >= next && (bp > p || bp < next))
  }

  lemma StopsAt(mem: map<int, Header>, f: seq<Blk>, k: nat, t: nat, bp: int)
    requires Sorted(f) && Ring(mem, f) && k < |f| && t < |f| && f[0].addr < bp
    requires f[t].addr < bp && (t + 1 < |f| ==> bp < f[t + 1].addr)
    ensures Linked(mem, f, k) && f[0].addr <= f[k].addr && (Stops(f[k].addr, f[After(f, k)].addr, bp) <==> k == t)
  {
    RingAt(mem, f, k);
    if k < t { Above(f, k, t); Above(f, k, k + 1); if k + 1 < t { Above(f, k + 1, t); } }
    if k > t { if t + 1 < k { Above(f, t + 1, k); } Above(f, t, k); }
    if k + 1 < |f| { Above(f, k, k + 1); }
    if k > 0 { Above(f, 0, k); }
  }

  lemma HeldHeader(mem: map<int, Header>, live: map<int, nat>, bp: int)
    requires Heads(mem, live) && bp in live
    ensures bp in mem && mem[bp].size == live[bp]
  {
  }

  lemma ReadRing(mem: map<int, Header>, f: seq<Blk>, t: nat)
    requires Ring(mem, f) && t < |f|
    ensures f[t].addr in mem && mem[f[t].addr] == Header(f[After(f, t)].addr, f[t].size)
    ensures var n := f[After(f, t)]; n.addr in mem && mem[n.addr] == Header(f[After(f, After(f, t))].addr, n.size)
  {
    RingAt(mem, f, t);
    RingAt(mem, f, After(f, t));
  }

  lemma RingWrite(mem: map<int, Header>, f: seq<Blk>, y: int, h: Header)
    requires Ring(mem, f) && forall i :: 0 <= i < |f| ==> f[i].addr != y
    ensures Ring(mem[y := h], f)
  {
    var m := mem[y := h];
    forall i | 0 <= i < |f| ensures Linked(m, f, i) {
      RingAt(mem, f, i);
    }
  }

  /** A fresh chunk above everything disturbs neither the list nor the payloads. */
  lemma GrowMemory(mem: map<int, Header>, free: seq<Blk>, live: map<int, nat>, chunks: seq<Blk>, base: int, at: int, h: Header)
    requires Sound(free, live, chunks, base) && base < at && h.size > 0 && Ring(mem, free) && Heads(mem, live)
    requires forall x :: Covers(chunks, x) ==> x < at
    ensures Ring(mem[at := h], free) && Heads(mem[at := h], live[at := h.size])
    ensures SamePayload(mem, mem[at := h], live)
    ensures at !in live
  {
    forall i | 0 <= i < |free| ensures free[i].addr != at {
      if i > 0 { assert In(free[i], free[i].addr) && Covers(free, free[i].addr); }
    }
    RingWrite(mem, free, at, h);
    forall x | Payload(live, x) ensures x != at { assert Used(live, x); }
    SameTrans(mem, mem, at, h, live);
    assert at in live ==> Held(live, at, at) && Used(live, at);
  }

  lemma TakeMemory(mem: map<int, Header>, free: seq<Blk>, live: map<int, nat>, chunks: seq<Blk>, base: int, i: nat, n: nat, junk: int)
    requires Sound(free, live, chunks, base) && 1 <= i < |free| && 0 < n <= free[i].size && Ring(mem, free) && Heads(mem, live)
    ensures var p := free[i].End() - n;
            var m := if free[i].size == n then mem[free[i - 1].addr := Header(free[After(free, i)].addr, free[i - 1].size)]
                     else mem[free[i].addr := Header(free[After(free, i)].addr, free[i].size - n)][p := Header(junk, n)];
            SamePayload(mem, m, live) && Heads(m, live[p := n])
  {
    hide Ring, Linked, Covers, Sorted;
    FreeHeader(free, live, chunks, base, i);
    FreeHeader(free, live, chunks, base, i - 1);
    ReadRing(mem, free, i);
    var p := free[i].End() - n;
    TakesFree(free, live, chunks, base, i, n);
    forall x | Payload(live, x) ensures Used(live, x) {}
    forall a | a in live ensures Used(live, a) { assert Held(live, a, a); }
    if free[i].size == n {
      SameTrans(mem, mem, free[i - 1].addr, Header(free[After(free, i)].addr, free[i - 1].size), live);
      Rise(free, i);
    } else {
      var h := Header(free[After(free, i)].addr, free[i].size - n);
      SameTrans(mem, mem, free[i].addr, h, live);
      SameTrans(mem, mem[free[i].addr := h], p, Header(junk, n), live);
    }
  }

  lemma Rise(f: seq<Blk>, i: nat)
    requires Sorted(f) && 1 <= i < |f|
    ensures f[i - 1].addr < f[i].addr
  {
    Above(f, i - 1, i);
  }

  lemma TakesFree(free: seq<Blk>, live: map<int, nat>, chunks: seq<Blk>, base: int, i: nat, n: nat)
    requires Sound(free, live, chunks, base) && 1 <= i < |free| && 0 < n <= free[i].size
    ensures !Used(live, free[i].End() - n)
  {
    assert In(free[i], free[i].End() - n);
  }

  /** How many steps along the ring lead from block k to block s. */
  ghost function Dist(k: nat, s: nat, n: nat): nat
    requires k < n && s < n
  {
    if k <= s then s - k else s - k + n
  }

  /** The blocks behind s and before k are all too small. */
  ghost predicate Passed(f: seq<Blk>, s: nat, k: nat, n: nat) {
    s < |f| && k < |f| && forall j :: 0 <= j < |f| && Dist(j, s, |f|) > Dist(k, s, |f|) ==> f[j].size < n
  }

  ghost predicate Big(f: seq<Blk>, n: nat) {
    exists i :: 0 <= i < |f| && f[i].size >= n
  }

  lemma PassedNext(f: seq<Blk>, s: nat, k: nat, n: nat)
    requires Passed(f, s, k, n) && f[k].size < n
    ensures k == s ==> !Big(f, n)
    ensures k != s ==> Passed(f, s, After(f, k), n) && Dist(After(f, k), s, |f|) < Dist(k, s, |f|)
  {
    forall j | 0 <= j < |f| && Dist(j, s, |f|) == Dist(k, s, |f|) ensures j == k {}
  }

  const MORE: nat := 4096
  const KERNBASE: nat := 0x8000_0000

  /** What morecore makes of the units it needs. */
  function Asked(units: nat): nat {
    if units < MORE then MORE else units
  }

  class Allocator {
    const base: int
    var brk: nat    // the size of the process
    var top: nat    // where its memory ends
    var mem: map<int, Header>
    var freep: int
    ghost var free: seq<Blk>
    ghost var live: map<int, nat>
    ghost var chunks: seq<Blk>

    ghost predicate Started()
      reads `mem, `freep, `free, `live, `chunks
    {
      if freep == 0 then free == [Blk(base, 0)] && live == map[] && chunks == []
      else Ring(mem, free) && exists i :: 0 <= i < |free| && free[i].addr == freep
    }

    ghost predicate Valid()
      reads `mem, `freep, `free, `live, `chunks
    {
      base > 0 && Sound(free, live, chunks, base) && Heads(mem, live) && Started()
    }

    /** All chunks lie in the memory of the process, which is as large as its size says. */
    ghost predicate Backed()
      reads `brk, `top, `chunks
    {
      base < brk == top && 8 * brk < KERNBASE && forall x :: Covers(chunks, x) ==> x < brk
    }

    constructor (at: int, size: nat, initial: map<int, Header>)
      requires 0 < at < size && 8 * size < KERNBASE
      ensures Valid() && Backed() && base == at && brk == size && live == map[] && chunks == [] && freep == 0 && free == [Blk(at, 0)]
    {
      base, brk, top, mem, freep := at, size, size, initial, 0;
      free, live, chunks := [Blk(at, 0)], map[], [];
    }

    /** sbrk: the old break, or -1. A large number of bytes is a negative one, by which the break moves down, unless that
        would be below 0. With nothing left the memory is gone, but sbrk fails and the size stays. */
    method Sbrk(bytes: nat, room: bool) returns (p: int)
      requires bytes < 0x1_0000_0000 && bytes % 8 == 0 && top == brk && 0 < 8 * brk < KERNBASE
      modifies `brk, `top
      ensures p == if Refused(bytes, old(brk), room) then -1 else old(brk)
      ensures bytes < 0x8000_0000 ==> (p == -1 <==> bytes > 0 && (8 * old(brk) + bytes >= 0x8000_0000 || !room))
      ensures bytes < 0x8000_0000 ==> top == brk == old(brk) + if p == -1 then 0 else bytes / 8
      ensures bytes >= 0x8000_0000 ==>
        var less := (0x1_0000_0000 - bytes) / 8;
        && (p == -1 <==> less == old(brk))
        && brk == (if less < old(brk) then old(brk) - less else old(brk))
        && top == (if less <= old(brk) then old(brk) - less else old(brk))
      ensures 0 <= 8 * brk < KERNBASE && (bytes < 0x8000_0000 && old(Backed()) ==> Backed())
    {
      hide Covers;
      p := brk;
      if 0 < bytes < 0x8000_0000 {
        if 8 * brk + bytes >= KERNBASE || !room {
          return -1;
        }
        brk, top := brk + bytes / 8, brk + bytes / 8;
      } else if bytes >= 0x8000_0000 {
        var less := (0x1_0000_0000 - bytes) / 8;
        if less <= brk {
          top := brk - less;
          if top == 0 {
            return -1;
          }
          brk := top;
        }
      }
    }

    /** The search of free: the free block that bp goes behind. */
    method Search(bp: int) returns (p: int, ghost t: nat)
      requires Valid() && bp in live
      ensures t < |free| && p == free[t].addr && p != 0 && Fits(free, t, Blk(bp, live[bp]))
      ensures freep != 0 && p < bp
    {
      hide Ring, Sound, Fits, Sorted, Heads;
      HeldAbove(free, live, chunks, base, bp);
      t := FindPlace(free, bp);
      HeldFits(free, live, chunks, base, t, bp);
      p := freep;
      ghost var k: nat :| k < |free| && free[k].addr == freep;
      StopsAt(mem, free, k, t, bp);
      while !(bp > p && bp < mem[p].ptr)
        invariant k < |free| && p == free[k].addr >= base && Linked(mem, free, k)
        invariant Stops(p, mem[p].ptr, bp) <==> k == t
        decreases if k <= t then t - k else t - k + |free|
      {
        if p >= mem[p].ptr && (bp > p || bp < mem[p].ptr) { break; }
        p := mem[p].ptr;
        k := After(free, k);
        StopsAt(mem, free, k, t, bp);
      }
    }

    method Free(ap: int)
      requires Valid() && ap - 1 in live
      modifies `mem, `freep, `free, `live
      ensures Valid() && freep != 0 && live == old(live) - {ap - 1}
      ensures forall x :: Covers(free, x) <==> Covers(old(free), x) || Held(old(live), ap - 1, x)
      ensures SamePayload(old(mem), mem, live)
      ensures Big(free, old(live[ap - 1]))
      // the next search starts at the free block that lies before the one given back, or has swallowed it
      ensures freep < ap - 1 && forall i :: 0 <= i < |free| ==> free[i].addr <= freep || free[i].addr >= ap - 1
    {
      hide Ring, Give, Sound, Fits, Sorted, Covers, SamePayload, Linked;
      var bp := ap - 1;
      HeldHeader(mem, live, bp);
      ghost var b := Blk(bp, live[bp]);
      HeldAbove(free, live, chunks, base, bp);
      var p;
      ghost var t;
      p, t := Search(bp);
      ReadRing(mem, free, t);
      var next := mem[p].ptr;
      if bp + mem[bp].size == next {
        mem := mem[bp := Header(mem[next].ptr, mem[bp].size + mem[next].size)];
      } else {
        mem := mem[bp := Header(next, mem[bp].size)];
      }
      if p + mem[p].size == bp {
        mem := mem[p := Header(mem[bp].ptr, mem[p].size + mem[bp].size)];
      } else {
        mem := mem[p := Header(bp, mem[p].size)];
      }
      freep := p;
      FreePayload(old(mem), free, live, chunks, base, bp, t, mem[bp], mem[p]);
      assert mem == old(mem)[bp := mem[bp]][p := mem[p]];
      RingGive(old(mem), free, t, b);
      GiveSound(free, live, chunks, base, t, bp);
      forall x ensures Covers(Give(free, t, b), x) <==> Covers(free, x) || Held(live, bp, x) {
        GiveCovers(free, t, b, x);
      }
      GiveAddrs(free, live, chunks, base, t, b);
      free, live := Give(free, t, b), live - {bp};
    }

    method Morecore(units: nat, room: bool) returns (p: int)
      requires Valid() && Backed() && freep != 0 && 8 * units <= 0x1_0000_0000
      modifies `mem, `freep, `free, `live, `chunks, `brk, `top
      // at least 4096 units are asked for
      ensures var nu := if units < 4096 then 4096 else units;
              && (p == 0 <==> Refused(8 * nu % 0x1_0000_0000, old(brk), room))
              && (p != 0 ==> chunks == old(chunks) + [Blk(old(brk), nu)])
              && (p != 0 && 8 * nu < 0x8000_0000 ==> brk == old(brk) + nu)
      ensures p == 0 ==> mem == old(mem) && freep == old(freep) && free == old(free) && chunks == old(chunks)
      ensures p != 0 ==> p == freep && Big(free, units)
      ensures p != 0 ==> forall x :: Covers(free, x) <==> Covers(old(free), x) || In(Blk(old(brk), Asked(units)), x)
      // the chunk is memory of the process unless the number of bytes has wrapped around or become negative
      ensures Backed() <==> 8 * units < KERNBASE
      ensures !Backed() ==> top <= old(brk)
      ensures Valid() && freep != 0 && live == old(live)
      ensures SamePayload(old(mem), mem, live)
    {
      hide Ring, Sound, Heads, Covers, SamePayload;
      SameSelf(mem, live);
      var nu := units;
      if nu < MORE { nu := MORE; }
      ghost var b := Blk(brk, nu);
      Taken(chunks, b);
      assert In(b, brk);
      var at := Sbrk(Bytes(nu), room);
      if at == -1 { return 0; }
      var h := Header(if at in mem then mem[at].ptr else 0, nu);
      GrowMemory(mem, free, live, chunks, base, at, h);
      GrowSound(free, live, chunks, base, at, nu);
      mem := mem[at := h];
      live, chunks := live[at := nu], chunks + [b];
      ghost var m := mem;
      Free(at + 1);
      assert live == old(live);
      SameTwice(old(mem), m, mem, live);
      BigEnough(free, nu, units);
      return freep;
    }

    /** What malloc does once p, behind prevp, is big enough. */
    method Carve(prevp: int, p: int, nunits: nat, ghost k: nat) returns (r: int)
      requires Valid() && freep != 0 && 0 < nunits && k < |free| && free[k].addr == p && nunits <= free[k].size
      requires k > 0 ==> free[k - 1].addr == prevp
      modifies `mem, `freep, `free, `live
      ensures freep == prevp && r - 1 == old(free)[k].End() - nunits
      ensures Valid() && freep != 0 && r > base + 1 && r - 1 !in old(live) && live == old(live)[r - 1 := nunits]
      ensures !Covers(old(free), r - 1 + nunits) && forall x :: In(Blk(r - 1, nunits), x) ==> Covers(old(free), x)
      ensures SamePayload(old(mem), mem, old(live))
    {
      hide Ring, Sound, Heads, Covers, SamePayload, Take, Sorted, Linked;
      BaseFirst(free, live, chunks, base, k);
      ReadRing(mem, free, k - 1);
      ReadRing(mem, free, k);
      r := p;
      ghost var junk := 0;
      if mem[r].size == nunits {
        mem := mem[prevp := Header(mem[r].ptr, mem[prevp].size)];
      } else {
        mem := mem[r := Header(mem[r].ptr, mem[r].size - nunits)];
        r := r + mem[r].size;
        var old_ := if r in mem then mem[r].ptr else 0;
        junk := old_;
        mem := mem[r := Header(old_, nunits)];
      }
      freep := prevp;
      RingTake(old(mem), free, k, nunits, junk);
      TakeSound(free, live, chunks, base, k, nunits);
      TakeMemory(old(mem), free, live, chunks, base, k, nunits, junk);
      Tail(free, k, nunits);
      free, live := Take(free, k, nunits), live[r := nunits];
      r := r + 1;
    }

    /** The first call makes base, of size 0, the only block of the list. */
    method Start()
      requires Valid()
      modifies `mem, `freep
      ensures Valid() && freep != 0 && SamePayload(old(mem), mem, live)
      ensures if old(freep) == 0 then freep == base && free == [Blk(base, 0)] else freep == old(freep) && mem == old(mem)
    {
      hide Ring, Sound, Heads, SamePayload;
      SameSelf(mem, live);
      if freep == 0 {
        mem := mem[base := Header(base, 0)];
        freep := base;
        OneBlock(mem, base);
        StartPayload(old(mem), mem);
        assert free[0].addr == freep;
      }
    }

    lemma Rings() returns (s: nat)
      requires Valid() && freep != 0
      ensures Ring(mem, free) && Sound(free, live, chunks, base) && base > 0
      ensures s < |free| && free[s].addr == freep
    {
      hide Ring, Sound, Heads;
      s :| 0 <= s < |free| && free[s].addr == freep;
    }

    /** r is what malloc returns for nbytes: a block in the memory of the process, with room for them behind the header. */
    ghost predicate Serves(r: int, nbytes: nat)
      requires nbytes < 0x1_0000_0000
      reads `top
    {
      r - 1 + Nunits(nbytes) <= top && 8 * (Nunits(nbytes) - 1) >= nbytes
    }

    /** The loop of malloc: the free block that is big enough, from behind freep on, with the one before it; or 0. */
    method Find(nunits: nat, room: bool) returns (prevp: int, p: int, ghost k: nat, ghost grown: bool)
      requires Valid() && Backed() && freep != 0 && 0 < nunits && 8 * nunits <= 0x1_0000_0000
      modifies `mem, `freep, `free, `live, `chunks, `brk, `top
      ensures Valid() && freep != 0 && live == old(live) && SamePayload(old(mem), mem, live)
      ensures p == 0 <==> !Big(old(free), nunits) && Refused(Bytes(Asked(nunits)), old(brk), room)
      ensures grown <==> !Big(old(free), nunits) && p != 0
      ensures p != 0 ==> 1 <= k < |free| && free[k].addr == p && free[k].size >= nunits && free[k - 1].addr == prevp && base < p
      ensures !grown ==> free == old(free) && chunks == old(chunks) && (p != 0 ==> Backed())
      ensures p != 0 && !grown ==> forall b :: b in free ==>
        (if old(freep) < p then old(freep) < b.addr < p else b.addr > old(freep) || b.addr < p) ==> b.size < nunits
      ensures grown ==> chunks == old(chunks) + [Blk(old(brk), Asked(nunits))]
      ensures grown ==> forall x :: Covers(free, x) <==> Covers(old(free), x) || In(Blk(old(brk), Asked(nunits)), x)
      ensures p == 0 || grown ==> (Backed() <==> 8 * nunits < KERNBASE) && (!Backed() ==> top <= old(brk))
    {
      hide Valid, Ring, Sound, Heads, Covers, SamePayload, Sorted, Linked, Big, Passed, Refused;
      SameSelf(mem, live);
      prevp := freep;
      ghost var s: nat := Rings();
      grown := false;
      ghost var chunk := Blk(brk, Asked(nunits));
      ReadRing(mem, free, s);
      ghost var pk: nat := s;
      k := After(free, s);
      p := mem[prevp].ptr;
      StartSearch(free, s, nunits);
      while true
        invariant Valid() && freep != 0 && live == old(live) && SamePayload(old(mem), mem, live)
        invariant !grown ==> free == old(free) && chunks == old(chunks) && brk == old(brk) && Backed() && freep == old(freep)
        invariant grown ==> !Big(old(free), nunits) && Big(free, nunits) && !Refused(Bytes(Asked(nunits)), old(brk), room)
        invariant grown ==> chunks == old(chunks) + [chunk] && (forall x :: Covers(free, x) <==> Covers(old(free), x) || In(chunk, x))
        invariant grown ==> (Backed() <==> 8 * nunits < KERNBASE) && (!Backed() ==> top <= old(brk))
        invariant s < |free| && free[s].addr == freep && pk < |free| && free[pk].addr == prevp
        invariant k == After(free, pk) && p == free[k].addr && Passed(free, s, k, nunits)
        decreases if grown then 0 else 1, Dist(k, s, |free|)
      {
        ghost var m := mem;
        var _ := Rings();
        ReadRing(mem, free, k);
        if mem[p].size >= nunits {
          IsBig(free, k, nunits);
          BaseFirst(free, live, chunks, base, k);
          PassedExactly(free, s, k, nunits);
          return;
        }
        PassedNext(free, s, k, nunits);
        SameAddr(free, live, chunks, base, k, s);
        if p == freep {
          p := Morecore(nunits, room);
          SameTwice(old(mem), m, mem, live);
          if p == 0 { return; }
          grown := true;
          s := Rings();
          k := s;
          StartSearch(free, s, nunits);
          ReadRing(mem, free, k);
        }
        prevp, pk := p, k;
        p, k := mem[p].ptr, After(free, k);
      }
    }

    method Malloc(nbytes: nat, room: bool) returns (r: int, ghost k: nat)
      requires Valid() && Backed() && nbytes < 0x1_0000_0000
      modifies `mem, `freep, `free, `live, `chunks, `brk, `top
      ensures Valid() && freep != 0
      ensures r == 0 <==> !Big(old(free), Nunits(nbytes)) && Refused(Bytes(Asked(Nunits(nbytes))), old(brk), room)
      // first fit: of the free blocks from behind the one where the last search ended, in the order of their addresses and
      // around, the first that is big enough gives its tail
      ensures Big(old(free), Nunits(nbytes)) ==>
        && old(freep) != 0 && 1 <= k < |old(free)| && old(free)[k].size >= Nunits(nbytes) && freep == old(free)[k - 1].addr
        && r - 1 == old(free)[k].addr + old(free)[k].size - Nunits(nbytes)
        && forall b :: b in old(free) ==>
             (if old(freep) < old(free)[k].addr then old(freep) < b.addr < old(free)[k].addr else b.addr > old(freep) || b.addr < old(free)[k].addr) ==>
               b.size < Nunits(nbytes)
      // from a new chunk it is the tail as well
      ensures r != 0 && !Big(old(free), Nunits(nbytes)) ==>
        r - 1 == old(brk) + (if Nunits(nbytes) < 4096 then 4096 else Nunits(nbytes)) - Nunits(nbytes)
      ensures r == 0 ==> live == old(live) && free == old(free)
      ensures r != 0 ==> r > base + 1 && r - 1 !in old(live) && live == old(live)[r - 1 := Nunits(nbytes)]
      ensures chunks == old(chunks) + if r == 0 || Big(old(free), Nunits(nbytes)) then []
                                      else [Blk(old(brk), if Nunits(nbytes) < 4096 then 4096 else Nunits(nbytes))]
      // what is asked for is what is got exactly up to 2^31 - 16 bytes, and up to 2^32 - 8 from a block that is free already
      ensures r != 0 ==>
        (Serves(r, nbytes) <==> nbytes <= 0x8000_0000 - 16 || (Big(old(free), Nunits(nbytes)) && nbytes <= 0x1_0000_0000 - 8))
      // every unit taken in stays memory of the process exactly outside the rest of that range
      ensures Backed() <==> Big(old(free), Nunits(nbytes)) || !(0x8000_0000 - 16 < nbytes <= 0x1_0000_0000 - 8)
      // otherwise the block lies behind the end of the memory
      ensures r != 0 && !Backed() ==> r - 1 == old(brk) >= top
      ensures SamePayload(old(mem), mem, old(live))
    {
      hide Valid, Ring, Sound, Heads, Covers, SamePayload, Sorted, Linked, Big, Nunits, Refused;
      var nunits := Nunits(nbytes);
      StrayBytes(nbytes);
      NunitsEnough(nbytes);
      Start();
      ghost var m := mem;
      var _ := Rings();
      Ordered(free, live, chunks, base, brk);
      var prevp, p;
      ghost var grown;
      prevp, p, k, grown := Find(nunits, room);
      SameTwice(old(mem), m, mem, live);
      if p == 0 {
        return 0, k;
      }
      ghost var m1, f := mem, free;
      r := Carve(prevp, p, nunits, k);
      SameTwice(old(mem), m1, mem, old(live));
      if grown {
        NewChunk(old(free), f, Blk(old(brk), Asked(nunits)), r - 1, nunits);
      } else {
        NotFirst(old(freep), f, base, nunits);
      }
      if Backed() { InMemory(r - 1, nunits); }
    }

    /** Whatever is allocated is memory of the process as long as all chunks are. */
    lemma InMemory(a: int, n: nat)
      requires Valid() && Backed() && n > 0
      requires a in live && live[a] == n
      ensures a + n <= top
    {
      hide Sorted, Ring, Heads;
      assert Held(live, a, a + n - 1);
      assert Used(live, a + n - 1);
    }

    /** A program may write to its own payload as it likes. */
    method Store(y: int, h: Header)
      requires Valid() && Payload(live, y)
      modifies `mem
      ensures Valid() && mem == old(mem)[y := h]
    {
      hide Sound, Ring, Heads;
      PayloadApart(mem, free, live, chunks, base, y, h);
      assert freep == 0 ==> forall a :: a !in live;
      mem := mem[y := h];
    }
  }

  /** A request for 2^31 bytes gives a block at the end of the memory, however much room there is. */
  method StrayBlock(room: bool) returns (a: Allocator, r: int)
    ensures a.Valid() && r - 1 in a.live && r - 1 >= a.top && a.live[r - 1] == 0x1000_0001 && !a.Backed()
  {
    hide a.Valid, Ring, Sound, Heads, SamePayload;
    a := new Allocator(1000, 4096, map[]);
    assert Nunits(0x8000_0000) == 0x1000_0001 && !Big(a.free, 0x1000_0001);
    ghost var k;
    r, k := a.Malloc(0x8000_0000, room);
  }

  lemma PayloadApart(mem: map<int, Header>, free: seq<Blk>, live: map<int, nat>, chunks: seq<Blk>, base: int, y: int, h: Header)
    requires Sound(free, live, chunks, base) && Heads(mem, live) && Payload(live, y)
    ensures Heads(mem[y := h], live) && (Ring(mem, free) ==> Ring(mem[y := h], free))
    ensures live != map[]
  {
    var a :| Held(live, a, y) && y != a;
    assert Used(live, y);
    assert y in live ==> Held(live, y, y);
    forall i | 0 <= i < |free| ensures free[i].addr != y { FreeHeader(free, live, chunks, base, i); }
    if Ring(mem, free) { RingWrite(mem, free, y, h); }
  }

  lemma Ordered(free: seq<Blk>, live: map<int, nat>, chunks: seq<Blk>, base: int, brk: int)
    requires Sound(free, live, chunks, base) && forall x :: Covers(chunks, x) ==> x < brk
    ensures Sorted(free) && forall x :: Covers(free, x) ==> x < brk
  {
  }

  lemma Taken(chunks: seq<Blk>, b: Blk)
    ensures forall x :: Covers(chunks + [b], x) <==> Covers(chunks, x) || In(b, x)
  {
    assert (chunks + [b])[|chunks|] == b;
    assert forall i :: 0 <= i < |chunks| ==> (chunks + [b])[i] == chunks[i];
  }

  lemma Tail(f: seq<Blk>, k: nat, n: nat)
    requires Sorted(f) && k < |f| && n <= f[k].size
    ensures !Covers(f, f[k].End()) && forall x :: In(Blk(f[k].End() - n, n), x) ==> Covers(f, x)
  {
    forall i | 0 <= i < |f| ensures !In(f[i], f[k].End()) {
      if i < k { Above(f, i, k); }
      if k < i { Above(f, k, i); }
    }
    forall x | In(Blk(f[k].End() - n, n), x) ensures Covers(f, x) { assert In(f[k], x); }
  }

  /** With no block big enough before, the block carved out is the tail of the new chunk. */
  lemma NewChunk(f: seq<Blk>, g: seq<Blk>, c: Blk, a: int, n: nat)
    requires Sorted(f) && n > 0 && !Big(f, n) && forall x :: Covers(f, x) ==> x < c.addr
    requires forall x :: Covers(g, x) <==> Covers(f, x) || In(c, x)
    requires !Covers(g, a + n) && forall x :: In(Blk(a, n), x) ==> Covers(g, x)
    ensures a + n == c.End()
  {
    hide Sorted, Big, Covers;
    if a + n <= c.addr {
      forall x | In(Blk(a, n), x) ensures Covers(f, x) {}
      RunInBlock(f, a, n);
    }
    assert In(Blk(a, n), a + n - 1) && !In(c, a + n);
  }

  /** No block of the new list begins between the one that b goes behind and b. */
  lemma GiveAddrs(free: seq<Blk>, live: map<int, nat>, chunks: seq<Blk>, base: int, t: nat, b: Blk)
    requires Sound(free, live, chunks, base) && Fits(free, t, b)
    ensures forall i :: 0 <= i < |Give(free, t, b)| ==> Give(free, t, b)[i].addr <= free[t].addr || Give(free, t, b)[i].addr >= b.addr
  {
    hide Insert, Join;
    forall j | 0 <= j < |free| ensures free[j].addr <= free[t].addr || free[j].addr >= b.addr {
      if j < t { Above(free, j, t); }
      if j > t + 1 { Above(free, t + 1, j); }
    }
    InsertAt(free, t, b);
    var g := Insert(free, t, b);
    if Touch(g, t + 2) { JoinAt(g, t + 1); }
    JoinAt(Upper(free, t, b), t);
  }

  /** The blocks passed over are those that the search meets first, in the order of their addresses from f[s] on. */
  lemma PassedExactly(f: seq<Blk>, s: nat, k: nat, n: nat)
    requires Sorted(f) && Passed(f, s, k, n)
    ensures forall b :: b in f ==>
      (if f[s].addr < f[k].addr then f[s].addr < b.addr < f[k].addr else b.addr > f[s].addr || b.addr < f[k].addr) ==> b.size < n
  {
    forall i, j | 0 <= i < j < |f| ensures f[i].addr < f[j].addr { Above(f, i, j); }
  }

  lemma NotFirst(freep: int, f: seq<Blk>, base: int, n: nat)
    requires n > 0 && Big(f, n) && (freep == 0 ==> f == [Blk(base, 0)])
    ensures freep != 0
  {
  }

  lemma SameSelf(m: map<int, Header>, live: map<int, nat>)
    ensures SamePayload(m, m, live)
  {
  }

  lemma SameTwice(m: map<int, Header>, n: map<int, Header>, o: map<int, Header>, live: map<int, nat>)
    requires SamePayload(m, n, live) && SamePayload(n, o, live)
    ensures SamePayload(m, o, live)
  {
  }

  lemma BigEnough(f: seq<Blk>, n: nat, m: nat)
    requires Big(f, n) && m <= n
    ensures Big(f, m)
  {
  }

  lemma IsBig(f: seq<Blk>, k: nat, n: nat)
    requires k < |f| && f[k].size >= n
    ensures Big(f, n)
  {
  }

  lemma BaseFirst(free: seq<Blk>, live: map<int, nat>, chunks: seq<Blk>, base: int, k: nat)
    requires Sound(free, live, chunks, base) && k < |free| && free[k].size > 0
    ensures k > 0 && base <= free[k - 1].addr && base < free[k].addr && Sorted(free)
  {
    if k > 1 { Above(free, 0, k - 1); }
    Above(free, 0, k);
  }

  lemma OneBlock(mem: map<int, Header>, base: int)
    requires base in mem && mem[base] == Header(base, 0)
    ensures Ring(mem, [Blk(base, 0)])
  {
    assert Linked(mem, [Blk(base, 0)], 0);
  }

  lemma StartPayload(m: map<int, Header>, n: map<int, Header>)
    ensures SamePayload(m, n, map[]) && Heads(n, map[])
  {
  }

  lemma StartSearch(f: seq<Blk>, s: nat, n: nat)
    requires s < |f|
    ensures Passed(f, s, After(f, s), n)
  {
  }

  lemma SameAddr(free: seq<Blk>, live: map<int, nat>, chunks: seq<Blk>, base: int, i: nat, j: nat)
    requires Sound(free, live, chunks, base) && i < |free| && j < |free|
    ensures free[i].addr == free[j].addr <==> i == j
  {
    if i < j { Above(free, i, j); }
    if j < i { Above(free, j, i); }
  }
}
