/** Two-level page tables (vm.c) over a pool of frames (kalloc.c). Physical memory is a row of
    frames; a frame holds 1024 words, be it a page table, a user page or a link of the free list. */
module Vm {
  const NENT := 1024                     // NPDENTRIES == NPTENTRIES
  const NPAGES := NENT * NENT
  const KERNBASE := 0x8000_0000
  const USER := KERNBASE / 4096          // pages below KERNBASE
  const PTE_W := 2
  const PTE_U := 4

  type Word = x: int | 0 <= x < 0x1_0000_0000
  type Page = p: seq<Word> | |p| == NENT witness Fill(0)

  function Fill(w: Word): (p: seq<Word>)
    ensures |p| == NENT && forall i :: 0 <= i < NENT ==> p[i] == w
  {
    seq(NENT, _ => w)
  }

  /** The word of a frame that kfree has filled with ones, byte by byte. */
  const JUNK: Word := 0x0101_0101

  predicate Present(w: Word) {
    w % 2 == 1
  }

  /** PTE_ADDR, as a frame number, and PTE_FLAGS */
  function Frame(w: Word): nat {
    w / 4096
  }

  function Flags(w: Word): nat {
    w % 4096
  }

  /** pa | perm | PTE_P */
  function Pack(x: nat, perm: nat): (w: Word)
    requires x < NPAGES && perm < 4096
    ensures Present(w) && Frame(w) == x && Flags(w) == if perm % 2 == 1 then perm else perm + 1
  {
    var f := if perm % 2 == 1 then perm else perm + 1;
    assert Present(4096 * x + f) && Frame(4096 * x + f) == x && Flags(4096 * x + f) == f by { PackParts(x, f); }
    4096 * x + f
  }

  lemma PackParts(x: nat, f: nat)
    requires x < NPAGES && f < 4096 && f % 2 == 1
    ensures 4096 * x + f < 0x1_0000_0000
    ensures Present(4096 * x + f) && Frame(4096 * x + f) == x && Flags(4096 * x + f) == f
  {
    assert 4096 * x + f == 2 * (2048 * x + f / 2) + 1;
  }

  /* ---------- The free list ---------- */

  /** The address that stands for frame x in a link; 0 ends the list. */
  function Ptr(x: nat): Word
    requires x < NPAGES / 2
  {
    if x == 0 then 0 else KERNBASE + 4096 * x
  }

  function Pointee(w: Word): (x: nat) {
    if w < KERNBASE then 0 else (w - KERNBASE) / 4096
  }

  ghost predicate Sized(mem: seq<Page>) {
    0 < |mem| <= NPAGES / 2
  }

  function Head(free: seq<nat>): nat {
    if free == [] then 0 else free[0]
  }

  /** Each free frame's first word names the next one; no frame is listed twice. */
  ghost predicate Chained(mem: seq<Page>, free: seq<nat>)
    requires Sized(mem)
  {
    free == [] || (0 < free[0] < |mem| && free[0] !in free[1..] && Pointee(mem[free[0]][0]) == Head(free[1..]) && Chained(mem, free[1..]))
  }

  lemma {:induction false} ChainedIn(mem: seq<Page>, free: seq<nat>, x: nat)
    requires Sized(mem) && Chained(mem, free) && x in free
    ensures 0 < x < |mem|
  {
    if x != free[0] { ChainedIn(mem, free[1..], x); }
  }

  /** The list does not see changes to other frames. */
  lemma {:induction false} ChainedFrame(m0: seq<Page>, m1: seq<Page>, free: seq<nat>)
    requires Sized(m0) && |m1| == |m0| && Chained(m0, free)
    requires forall x :: 0 <= x < |m0| && x in free ==> m1[x] == m0[x]
    ensures Chained(m1, free)
  {
    if free != [] { ChainedFrame(m0, m1, free[1..]); }
  }

  /* ---------- An address space ---------- */

  /** The frame of the page table behind directory entry i, 0 if there is none. */
  ghost function Table(mem: seq<Page>, d: nat, i: nat): nat
    requires d < |mem| && i < NENT
  {
    if Present(mem[d][i]) then Frame(mem[d][i]) else 0
  }

  /** The page table entry of page v, 0 if there is no table for it. */
  ghost function Entry(mem: seq<Page>, d: nat, v: nat): Word
    requires d < |mem| && v < NPAGES
  {
    var t := Table(mem, d, v / NENT);
    if t == 0 || t >= |mem| then 0 else mem[t][v % NENT]
  }

  ghost predicate IsTable(mem: seq<Page>, d: nat, x: nat)
    requires d < |mem|
  {
    x != 0 && exists i :: 0 <= i < NENT && Table(mem, d, i) == x
  }

  /** User page v is in frame x. */
  ghost predicate Holds(mem: seq<Page>, d: nat, v: nat, x: nat)
    requires d < |mem|
  {
    v < USER && Present(Entry(mem, d, v)) && Frame(Entry(mem, d, v)) == x
  }

  ghost predicate IsUser(mem: seq<Page>, d: nat, x: nat)
    requires d < |mem|
  {
    exists v :: 0 <= v < USER && Holds(mem, d, v, x)
  }

  ghost predicate Owned(mem: seq<Page>, d: nat, x: nat)
    requires d < |mem|
  {
    x == d || IsTable(mem, d, x) || IsUser(mem, d, x)
  }

  /** What a page table allows is not taken back by the directory: a present entry has the bits
      for presence, writing and user access. */
  ghost predicate Open(p: Page) {
    forall i :: 0 <= i < NENT && p[i] % 2 == 1 ==> p[i] % 8 == 7
  }

  /** Directory q is directory p with new tables. */
  ghost predicate Opened(p: Page, q: Page) {
    forall i :: 0 <= i < NENT ==> q[i] == p[i] || (p[i] % 2 == 0 && q[i] % 4096 == 7)
  }

  /** The directory, the tables and the user pages lie in different frames. */
  ghost predicate Space(mem: seq<Page>, d: nat) {
    && Sized(mem) && 0 < d < |mem|
    && Open(mem[d])
    && (forall i :: 0 <= i < NENT && Present(mem[d][i]) ==> 0 < Table(mem, d, i) < |mem| && Table(mem, d, i) != d)
    && (forall i, j :: 0 <= i < NENT && 0 <= j < NENT && i != j && Table(mem, d, i) != 0 ==> Table(mem, d, i) != Table(mem, d, j))
    && (forall v: nat, x: nat :: Holds(mem, d, v, x) ==> 0 < x < |mem| && x != d && !IsTable(mem, d, x))
    && (forall v: nat, w: nat, x: nat :: Holds(mem, d, v, x) && Holds(mem, d, w, x) ==> v == w)
  }

  /** An address space and the free frames, apart from each other. */
  ghost predicate Ready(mem: seq<Page>, d: nat, free: seq<nat>) {
    Space(mem, d) && Chained(mem, free) && forall x :: x in free ==> !Owned(mem, d, x)
  }

  /** Frame x belongs to the free list or to the address space. */
  ghost predicate Pool(m: seq<Page>, f: seq<nat>, d: nat, x: nat)
    requires d < |m|
  {
    x in f || Owned(m, d, x)
  }

  /** From (m0, f0) to (m1, f1) frames moved between the address space and the free list. The frames in gain,
      which belonged to neither, came in; none was lost, and no other frame was written to. */
  ghost predicate Moved(m0: seq<Page>, f0: seq<nat>, m1: seq<Page>, f1: seq<nat>, d: nat, gain: set<nat>) {
    && Ready(m0, d, f0) && Ready(m1, d, f1) && |m1| == |m0|
    && (forall x :: x in gain ==> !Pool(m0, f0, d, x))
    && (forall x {:trigger Pool(m1, f1, d, x)} {:trigger Pool(m0, f0, d, x)} :: Pool(m1, f1, d, x) <==> Pool(m0, f0, d, x) || x in gain)
    && (forall x :: 0 <= x < |m0| && !Pool(m0, f0, d, x) && x !in gain ==> m1[x] == m0[x])
  }

  lemma MovedSelf(m: seq<Page>, f: seq<nat>, d: nat)
    requires Ready(m, d, f)
    ensures Moved(m, f, m, f, d, {})
  {
  }

  lemma MovedTwice(m0: seq<Page>, f0: seq<nat>, m1: seq<Page>, f1: seq<nat>, m2: seq<Page>, f2: seq<nat>, d: nat, g: set<nat>, h: set<nat>)
    requires Moved(m0, f0, m1, f1, d, g) && Moved(m1, f1, m2, f2, d, h)
    ensures Moved(m0, f0, m2, f2, d, g + h)
  {
    hide Ready, Pool;
    ReadyMeans(m0, d, f0);
    ReadyMeans(m1, d, f1);
  }

  lemma ReadyMeans(m: seq<Page>, d: nat, f: seq<nat>)
    requires Ready(m, d, f)
    ensures Sized(m) && 0 < d < |m| && Space(m, d) && Chained(m, f)
  {
  }

  /** Frames outside the address space do not matter to it. */
  lemma SpaceFrame(m0: seq<Page>, m1: seq<Page>, d: nat)
    requires Space(m0, d) && |m1| == |m0|
    requires m1[d] == m0[d] && forall x :: 0 <= x < |m0| && IsTable(m0, d, x) ==> m1[x] == m0[x]
    ensures Space(m1, d)
    ensures forall i :: 0 <= i < NENT ==> Table(m1, d, i) == Table(m0, d, i)
    ensures forall v :: 0 <= v < NPAGES ==> Entry(m1, d, v) == Entry(m0, d, v)
    ensures forall x :: Owned(m1, d, x) == Owned(m0, d, x)
  {
    assert forall i :: 0 <= i < NENT ==> Table(m1, d, i) == Table(m0, d, i);
    forall v | 0 <= v < NPAGES ensures Entry(m1, d, v) == Entry(m0, d, v) {
      assert v / NENT < NENT;
      assert Table(m0, d, v / NENT) != 0 ==> IsTable(m0, d, Table(m0, d, v / NENT));
    }
    SameView(m0, m1, d);
  }

  /** Everything about an address space follows from its tables and entries. */
  lemma SameView(m0: seq<Page>, m1: seq<Page>, d: nat)
    requires Space(m0, d) && |m1| == |m0| && m1[d] == m0[d]
    requires forall i :: 0 <= i < NENT ==> Table(m1, d, i) == Table(m0, d, i)
    requires forall v :: 0 <= v < NPAGES ==> Entry(m1, d, v) == Entry(m0, d, v)
    ensures Space(m1, d)
    ensures forall x :: Owned(m1, d, x) == Owned(m0, d, x)
  {
    hide Table, Entry;
    forall v, x ensures Holds(m1, d, v, x) == Holds(m0, d, v, x) {}
    forall x ensures IsTable(m1, d, x) == IsTable(m0, d, x) {}
    forall x ensures IsUser(m1, d, x) == IsUser(m0, d, x) {}
  }

  /* ---------- Changing an address space ---------- */

  /** *pte = w */
  ghost function SetEntry(mem: seq<Page>, d: nat, v: nat, w: Word): seq<Page>
    requires d < |mem| && v < NPAGES
  {
    var t := Table(mem, d, v / NENT);
    if t >= |mem| then mem else mem[t := mem[t][v % NENT := w]]
  }

  lemma SetEntryView(mem: seq<Page>, d: nat, v: nat, w: Word)
    requires Space(mem, d) && v < NPAGES && Table(mem, d, v / NENT) != 0
    ensures var m1 := SetEntry(mem, d, v, w);
            && |m1| == |mem| && m1[d] == mem[d]
            && (forall i :: 0 <= i < NENT ==> Table(m1, d, i) == Table(mem, d, i))
            && (forall u :: 0 <= u < NPAGES ==> Entry(m1, d, u) == if u == v then w else Entry(mem, d, u))
            && (forall x :: 0 <= x < |mem| && !IsTable(mem, d, x) ==> m1[x] == mem[x])
  {
    var t := Table(mem, d, v / NENT);
    var m1 := SetEntry(mem, d, v, w);
    assert IsTable(mem, d, t);
    forall u | 0 <= u < NPAGES ensures Entry(m1, d, u) == if u == v then w else Entry(mem, d, u) {
      if u / NENT == v / NENT {
        assert u % NENT == v % NENT ==> u == v;
      } else {
        assert Table(mem, d, u / NENT) != t;
      }
    }
  }

  /** Kernel entries are no business of the frame accounts. */
  lemma MapKernel(mem: seq<Page>, d: nat, v: nat, w: Word)
    requires Space(mem, d) && USER <= v < NPAGES && Table(mem, d, v / NENT) != 0
    ensures var m1 := SetEntry(mem, d, v, w); Space(m1, d) && forall x :: Owned(m1, d, x) == Owned(mem, d, x)
  {
    hide Table, Entry, SetEntry;
    SetEntryView(mem, d, v, w);
    var m1 := SetEntry(mem, d, v, w);
    forall u, x ensures Holds(m1, d, u, x) == Holds(mem, d, u, x) {}
    forall x ensures IsTable(m1, d, x) == IsTable(mem, d, x) {}
    forall x ensures IsUser(m1, d, x) == IsUser(mem, d, x) {}
  }

  /** A user page that was not there gets frame x, which nobody had. */
  lemma MapUser(mem: seq<Page>, d: nat, v: nat, w: Word)
    requires Space(mem, d) && v < USER && Table(mem, d, v / NENT) != 0 && !Present(Entry(mem, d, v))
    requires Present(w) && 0 < Frame(w) < |mem| && !Owned(mem, d, Frame(w))
    ensures var m1 := SetEntry(mem, d, v, w); Space(m1, d) && forall x :: Owned(m1, d, x) <==> Owned(mem, d, x) || x == Frame(w)
  {
    hide Table, Entry, SetEntry, Present, Frame;
    SetEntryView(mem, d, v, w);
    var m1 := SetEntry(mem, d, v, w);
    forall u, x ensures Holds(m1, d, u, x) <==> if u == v then x == Frame(w) else Holds(mem, d, u, x) {}
    forall x ensures IsTable(m1, d, x) == IsTable(mem, d, x) {}
    forall u, x | Holds(mem, d, u, x) ensures IsUser(mem, d, x) && u != v {}
    forall x ensures IsUser(m1, d, x) <==> IsUser(mem, d, x) || x == Frame(w) {
      assert Holds(m1, d, v, Frame(w));
      if IsUser(mem, d, x) { var u :| 0 <= u < USER && Holds(mem, d, u, x); assert Holds(m1, d, u, x); }
    }
  }

  lemma UnmapUser(mem: seq<Page>, d: nat, v: nat)
    requires Space(mem, d) && v < USER && Present(Entry(mem, d, v))
    ensures Table(mem, d, v / NENT) != 0
    ensures var m1 := SetEntry(mem, d, v, 0); Space(m1, d) && forall x :: Owned(m1, d, x) <==> Owned(mem, d, x) && x != Frame(Entry(mem, d, v))
  {
    hide Table, SetEntry;
    EntryTable(mem, d, v);
    SetEntryView(mem, d, v, 0);
    var m1 := SetEntry(mem, d, v, 0);
    var y := Frame(Entry(mem, d, v));
    UnmapHolds(mem, m1, d, v);
  }

  lemma UnmapHolds(mem: seq<Page>, m1: seq<Page>, d: nat, v: nat)
    requires Space(mem, d) && v < USER && Present(Entry(mem, d, v))
    requires |m1| == |mem| && m1[d] == mem[d]
    requires forall i :: 0 <= i < NENT ==> Table(m1, d, i) == Table(mem, d, i)
    requires forall u :: 0 <= u < NPAGES ==> Entry(m1, d, u) == if u == v then 0 else Entry(mem, d, u)
    ensures Space(m1, d) && forall x :: Owned(m1, d, x) <==> Owned(mem, d, x) && x != Frame(Entry(mem, d, v))
  {
    hide Table, Entry, Frame;
    var y := Frame(Entry(mem, d, v));
    assert Holds(mem, d, v, y);
    forall u, x ensures Holds(m1, d, u, x) <==> u != v && Holds(mem, d, u, x) {}
    forall x ensures IsTable(m1, d, x) == IsTable(mem, d, x) {}
    forall x ensures IsUser(m1, d, x) <==> IsUser(mem, d, x) && x != y {
      if IsUser(mem, d, x) && x != y { var u :| 0 <= u < USER && Holds(mem, d, u, x); assert Holds(m1, d, u, x); }
    }
  }

  lemma EntryTable(mem: seq<Page>, d: nat, v: nat)
    requires d < |mem| && v < NPAGES
    ensures Present(Entry(mem, d, v)) ==> Table(mem, d, v / NENT) != 0
  {
  }

  /** walkpgdir makes frame x, zeroed, the page table of directory entry i: present, writable and for users. */
  ghost function AddTable(mem: seq<Page>, d: nat, i: nat, x: nat): seq<Page>
    requires d < |mem| && i < NENT && x < |mem| && x < NPAGES
  {
    mem[x := Fill(0)][d := mem[d][i := Pack(x, PTE_W + PTE_U)]]
  }

  lemma AddTableView(mem: seq<Page>, d: nat, i: nat, x: nat)
    requires Space(mem, d) && i < NENT && Table(mem, d, i) == 0 && 0 < x < |mem| && !Owned(mem, d, x)
    ensures var m1 := AddTable(mem, d, i, x);
            && |m1| == |mem|
            && (forall j :: 0 <= j < NENT ==> Table(m1, d, j) == if j == i then x else Table(mem, d, j))
            && m1[d] == mem[d][i := 4096 * x + 7] && (forall j :: 0 <= j < NENT ==> m1[x][j] == 0)
            && (forall u :: 0 <= u < NPAGES ==> Entry(m1, d, u) == Entry(mem, d, u))
            && (forall y :: 0 <= y < |mem| && y != x && y != d ==> m1[y] == mem[y])
  {
    var m1 := AddTable(mem, d, i, x);
    assert forall j :: 0 <= j < NENT ==> Table(m1, d, j) == if j == i then x else Table(mem, d, j);
    forall u | 0 <= u < NPAGES ensures Entry(m1, d, u) == Entry(mem, d, u) {
      assert u / NENT < NENT;
      var t := Table(mem, d, u / NENT);
      assert t != 0 ==> IsTable(mem, d, t);
    }
  }

  lemma AddTableSpace(mem: seq<Page>, d: nat, i: nat, x: nat)
    requires Space(mem, d) && i < NENT && Table(mem, d, i) == 0 && 0 < x < |mem| && !Owned(mem, d, x)
    ensures var m1 := AddTable(mem, d, i, x); Space(m1, d) && forall y :: Owned(m1, d, y) <==> Owned(mem, d, y) || y == x
  {
    hide Table, Entry, AddTable, Owned, Space, Open;
    SpaceOpen(mem, d);
    AddTableView(mem, d, i, x);
    var m1 := AddTable(mem, d, i, x);
    ThreeBits(x);
    AddedOpen(mem[d], i, 4096 * x + 7);
    AddedTable(mem, m1, d, i, x);
  }

  lemma SpaceOpen(mem: seq<Page>, d: nat)
    requires Space(mem, d)
    ensures 0 < d < |mem| <= NPAGES / 2 && Open(mem[d])
  {
    hide Table, Holds, IsTable, Open;
  }

  lemma ThreeBits(x: nat)
    requires x < NPAGES
    ensures 4096 * x + 7 < 0x1_0000_0000 && (4096 * x + 7) % 8 == 7
  {
    var y := 512 * x;
    LowBits(y, 7);
    assert 4096 * x + 7 == 8 * y + 7;
  }

  lemma LowBits(y: nat, k: nat)
    requires k < 8
    ensures (8 * y + k) % 8 == k
  {
  }

  lemma AddedOpen(p: Page, i: nat, w: Word)
    requires Open(p) && i < NENT && w % 8 == 7
    ensures Open(p[i := w]) && forall j :: 0 <= j < NENT && j != i ==> p[i := w][j] == p[j]
  {
    var q := p[i := w];
    forall j | 0 <= j < NENT && q[j] % 2 == 1 ensures q[j] % 8 == 7 {
      if j != i { assert q[j] == p[j]; }
    }
  }

  lemma AddedTable(mem: seq<Page>, m1: seq<Page>, d: nat, i: nat, x: nat)
    requires Space(mem, d) && i < NENT && Table(mem, d, i) == 0 && 0 < x < |mem| && !Owned(mem, d, x) && |m1| == |mem|
    requires forall j :: 0 <= j < NENT ==> Table(m1, d, j) == if j == i then x else Table(mem, d, j)
    requires Open(m1[d]) && forall j :: 0 <= j < NENT && j != i ==> m1[d][j] == mem[d][j]
    requires forall u :: 0 <= u < NPAGES ==> Entry(m1, d, u) == Entry(mem, d, u)
    ensures Space(m1, d) && forall y :: Owned(m1, d, y) <==> Owned(mem, d, y) || y == x
  {
    hide Table, Entry, Open;
    forall u, y ensures Holds(m1, d, u, y) == Holds(mem, d, u, y) {}
    forall y ensures IsTable(m1, d, y) <==> IsTable(mem, d, y) || y == x {
      assert Table(m1, d, i) == x;
      if IsTable(mem, d, y) { var j :| 0 <= j < NENT && Table(mem, d, j) == y; assert Table(m1, d, j) == y; }
    }
    forall y ensures IsUser(m1, d, y) == IsUser(mem, d, y) {}
    forall j | 0 <= j < NENT && Table(mem, d, j) != 0 ensures IsTable(mem, d, Table(mem, d, j)) {}
    forall u: nat, y: nat | Holds(mem, d, u, y) ensures IsUser(mem, d, y) {}
  }

  /* ---------- Taking and giving frames ---------- */

  /** A frame that holds link p and junk otherwise. */
  function Linked(p: Word): (q: seq<Word>)
    ensures |q| == NENT && q[0] == p
  {
    Fill(JUNK)[0 := p]
  }

  lemma TakeReady(m: seq<Page>, f: seq<nat>, d: nat)
    requires Ready(m, d, f) && f != []
    ensures Ready(m, d, f[1..]) && 0 < f[0] < |m| && !Pool(m, f[1..], d, f[0])
    ensures forall y :: Pool(m, f, d, y) <==> Pool(m, f[1..], d, y) || y == f[0]
  {
    hide Owned, Space;
  }

  /** Writing to a frame that is neither free nor part of the address space. */
  lemma LooseWrite(m: seq<Page>, f: seq<nat>, d: nat, x: nat, p: Page)
    requires Ready(m, d, f) && 0 < x < |m| && !Pool(m, f, d, x)
    ensures x != d
    ensures var m1 := m[x := p];
            && Ready(m1, d, f) && m1[d] == m[d]
            && (forall i :: 0 <= i < NENT ==> Table(m1, d, i) == Table(m, d, i))
            && (forall v :: 0 <= v < NPAGES ==> Entry(m1, d, v) == Entry(m, d, v))
            && (forall y :: Owned(m1, d, y) == Owned(m, d, y))
  {
    hide Space, IsUser, Table, Entry;
    ReadyMeans(m, d, f);
    var m1 := m[x := p];
    SpaceFrame(m, m1, d);
    ChainedFrame(m, m1, f);
  }

  lemma GiveReady(m: seq<Page>, f: seq<nat>, d: nat, x: nat)
    requires Ready(m, d, f) && 0 < x < |m| && !Pool(m, f, d, x)
    ensures Head(f) < |m|
    ensures var m1 := m[x := Linked(Ptr(Head(f)))];
            && Moved(m, f, m1, [x] + f, d, {x}) && m1[d] == m[d]
            && (forall i :: 0 <= i < NENT ==> Table(m1, d, i) == Table(m, d, i))
            && (forall v :: 0 <= v < NPAGES ==> Entry(m1, d, v) == Entry(m, d, v))
  {
    hide Space, Owned, Table, Entry;
    ReadyMeans(m, d, f);
    if f != [] { ChainedIn(m, f, f[0]); }
    var m1 := m[x := Linked(Ptr(Head(f)))];
    LooseWrite(m, f, d, x, Linked(Ptr(Head(f))));
    assert ([x] + f)[1..] == f;
    forall y ensures Pool(m1, [x] + f, d, y) <==> Pool(m, f, d, y) || y == x {}
  }

  /** The user pages of memory r hold the same in m0 and m1. */
  ghost predicate Keeps(m0: seq<Page>, m1: seq<Page>, r: seq<Page>, d: nat)
    requires d < |r|
  {
    |m1| == |m0| && forall x :: 0 <= x < |m0| && IsUser(r, d, x) ==> m1[x] == m0[x]
  }

  ghost predicate SameEntries(m0: seq<Page>, m1: seq<Page>, d: nat)
    requires d < |m0| && d < |m1|
  {
    forall u :: 0 <= u < NPAGES ==> Entry(m1, d, u) == Entry(m0, d, u)
  }

  /** walkpgdir with a frame for the new table: the entries stay as they are. */
  lemma TableMoved(m: seq<Page>, f: seq<nat>, d: nat, i: nat)
    requires Ready(m, d, f) && f != [] && i < NENT && Table(m, d, i) == 0
    ensures 0 < f[0] < |m| && f[0] < NPAGES && f[0] != d
    ensures var m1 := AddTable(m, d, i, f[0]);
            && Moved(m, f, m1, f[1..], d, {}) && SameEntries(m, m1, d) && Keeps(m, m1, m, d)
            && (forall j :: 0 <= j < NENT ==> Table(m1, d, j) == if j == i then f[0] else Table(m, d, j))
            && m1[d] == m[d][i := 4096 * f[0] + 7] && (forall j :: 0 <= j < NENT ==> m1[f[0]][j] == 0)
            && forall x :: 0 <= x < |m| && x != d && x != f[0] ==> m1[x] == m[x]
  {
    hide Space, Table, Entry, AddTable, IsTable, IsUser;
    ReadyMeans(m, d, f);
    TakeReady(m, f, d);
    AddTableView(m, d, i, f[0]);
    AddTableSpace(m, d, i, f[0]);
    UserApart(m, d);
    ChainedFrame(m, AddTable(m, d, i, f[0]), f[1..]);
  }

  lemma UserApart(m: seq<Page>, d: nat)
    requires Space(m, d)
    ensures forall x: nat :: IsUser(m, d, x) ==> 0 < x < |m| && x != d && !IsTable(m, d, x)
  {
    forall x: nat | IsUser(m, d, x) ensures 0 < x < |m| && x != d && !IsTable(m, d, x) {
      var v :| 0 <= v < USER && Holds(m, d, v, x);
    }
  }

  /** An entry is filled for a page that was not there. */
  lemma MapMoved(m: seq<Page>, f: seq<nat>, d: nat, v: nat, w: Word)
    requires Ready(m, d, f) && v < NPAGES && Table(m, d, v / NENT) != 0 && !Present(Entry(m, d, v)) && Present(w)
    requires v < USER ==> 0 < Frame(w) < |m| && !Pool(m, f, d, Frame(w))
    ensures var m1 := SetEntry(m, d, v, w);
            && Moved(m, f, m1, f, d, if v < USER then {Frame(w)} else {}) && Keeps(m, m1, m, d) && m1[d] == m[d]
            && (forall i :: 0 <= i < NENT ==> Table(m1, d, i) == Table(m, d, i))
            && (forall u :: 0 <= u < NPAGES ==> Entry(m1, d, u) == if u == v then w else Entry(m, d, u))
            && (forall x :: 0 <= x < |m| && !Pool(m, f, d, x) ==> m1[x] == m[x])
  {
    hide Space, Table, Entry, SetEntry, IsTable, IsUser, Present, Frame;
    ReadyMeans(m, d, f);
    SetEntryView(m, d, v, w);
    if v < USER { MapUser(m, d, v, w); } else { MapKernel(m, d, v, w); }
    UserApart(m, d);
    ChainedFrame(m, SetEntry(m, d, v, w), f);
  }

  /** The entry of a page that is there is cleared, and its frame goes to the free list. */
  lemma UnmapMoved(m: seq<Page>, f: seq<nat>, d: nat, v: nat)
    requires Ready(m, d, f) && v < USER && Present(Entry(m, d, v))
    ensures var x := Frame(Entry(m, d, v)); 0 < x < |m| && x !in f && Head(f) < |m| && Table(m, d, v / NENT) != 0 && Table(m, d, v / NENT) != x
    ensures var x := Frame(Entry(m, d, v));
            var m1 := SetEntry(m, d, v, 0)[x := Linked(Ptr(Head(f)))];
            && Moved(m, f, m1, [x] + f, d, {}) && m1[d] == m[d] && Keeps(m, m1, m1, d)
            && (forall i :: 0 <= i < NENT ==> Table(m1, d, i) == Table(m, d, i))
            && (forall u :: 0 <= u < NPAGES ==> Entry(m1, d, u) == if u == v then 0 else Entry(m, d, u))
            && (forall y :: IsUser(m1, d, y) ==> IsUser(m, d, y))
  {
    hide Space, Table, Entry, SetEntry, IsTable, Frame;
    ReadyMeans(m, d, f);
    var x := Frame(Entry(m, d, v));
    assert Holds(m, d, v, x);
    UserApart(m, d);
    IsHeld(m, d, v, x);
    UnmapUser(m, d, v);
    HasTable(m, d, v / NENT);
    SetEntryView(m, d, v, 0);
    var m0 := SetEntry(m, d, v, 0);
    ChainedFrame(m, m0, f);
    GiveReady(m0, f, d, x);
    var m1 := m0[x := Linked(Ptr(Head(f)))];
    UnmapUsers(m, m0, m1, d, v);
  }

  lemma HasTable(m: seq<Page>, d: nat, i: nat)
    requires d < |m| && i < NENT
    ensures Table(m, d, i) != 0 ==> IsTable(m, d, Table(m, d, i))
  {
  }

  lemma UnmapUsers(m: seq<Page>, m0: seq<Page>, m1: seq<Page>, d: nat, v: nat)
    requires d < |m| == |m0| == |m1| && v < USER
    requires forall u :: 0 <= u < NPAGES ==> Entry(m0, d, u) == if u == v then 0 else Entry(m, d, u)
    requires forall u :: 0 <= u < NPAGES ==> Entry(m1, d, u) == Entry(m0, d, u)
    ensures forall y :: IsUser(m1, d, y) == IsUser(m0, d, y) && (IsUser(m0, d, y) ==> IsUser(m, d, y))
  {
    hide Entry, Frame;
    forall u, y ensures Holds(m0, d, u, y) ==> Holds(m, d, u, y) {}
    forall u, y ensures Holds(m1, d, u, y) == Holds(m0, d, u, y) {}
  }

  /* ---------- The machine ---------- */

  class Machine {
    var mem: seq<Page>
    var head: nat             // kmem.freelist
    ghost var free: seq<nat>

    ghost predicate Valid()
      reads this
    {
      Sized(mem) && Chained(mem, free) && head == Head(free)
    }

    constructor (mem: seq<Page>)
      requires Sized(mem)
      ensures Valid() && free == [] && this.mem == mem
    {
      this.mem, head, free := mem, 0, [];
    }

    /** kfree: the frame is filled with junk and becomes the head of the list. */
    method Kfree(x: nat)
      requires Valid() && 0 < x < |mem| && x !in free
      modifies this
      ensures Valid() && free == [x] + old(free)
      ensures mem == old(mem)[x := Linked(Ptr(Head(old(free))))] && Head(old(free)) < |mem|
      ensures mem[x][0] == (if old(free) == [] then 0 else 0x8000_0000 + 4096 * old(free)[0])
      ensures forall j :: 1 <= j < 1024 ==> mem[x][j] == 0x0101_0101
    {
      HeadIn(mem, free);
      mem := mem[x := Fill(JUNK)];
      mem := mem[x := mem[x][0 := Ptr(head)]];
      ChainedFrame(old(mem), mem, free);
      head := x;
      assert ([x] + free)[1..] == free;
      free := [x] + free;
    }

    /** kalloc: the head of the list, or 0 when there is none. */
    method Kalloc() returns (x: nat)
      requires Valid()
      modifies `head, `free
      ensures Valid()
      ensures if old(free) == [] then x == 0 && free == [] else x == old(free)[0] && free == old(free)[1..] && 0 < x < |mem|
    {
      HeadIn(mem, free);
      x := head;
      if x != 0 {
        head := Pointee(mem[x][0]);
        free := free[1..];
      }
    }

    /** freerange: every whole page between the two addresses becomes free, once. */
    method Freerange(vstart: nat, vend: nat)
      requires Valid() && 0 < vstart && vend <= 4096 * |mem|
      requires forall x :: (vstart + 4095) / 4096 <= x < vend / 4096 ==> x !in free
      modifies this
      ensures Valid() && |mem| == old(|mem|)
      ensures forall x :: x in free <==> x in old(free) || (vstart <= 4096 * x && 4096 * x + 4096 <= vend)
      ensures forall x :: 0 <= x < |mem| && !(vstart <= 4096 * x && 4096 * x + 4096 <= vend) ==> mem[x] == old(mem)[x]
    {
      var p := (vstart + 4095) / 4096;
      while 4096 * p + 4096 <= vend
        invariant Valid() && |mem| == old(|mem|) && p >= (vstart + 4095) / 4096
        invariant forall x :: x in free <==> x in old(free) || (vstart <= 4096 * x && x < p)
        invariant p == (vstart + 4095) / 4096 || 4096 * p <= vend
        invariant forall x :: 0 <= x < |mem| && !(vstart <= 4096 * x && x < p) ==> mem[x] == old(mem)[x]
        decreases vend - 4096 * p
      {
        Kfree(p);
        p := p + 1;
      }
    }

    /** walkpgdir: the frame of the page table for page v, 0 if there is none and none can be had. */
    method Walkpgdir(d: nat, v: nat, alloc: bool) returns (t: nat)
      requires Valid() && Ready(mem, d, free) && v < NPAGES
      modifies this
      ensures Valid() && Moved(old(mem), old(free), mem, free, d, {})
      ensures SameEntries(old(mem), mem, d) && Keeps(old(mem), mem, old(mem), d)
      ensures t == Table(mem, d, v / NENT) < |mem|
      ensures t == 0 <==> old(Table(mem, d, v / NENT)) == 0 && (!alloc || old(free) == [])
      ensures t == 0 || old(Table(mem, d, v / NENT)) != 0 ==> mem == old(mem) && free == old(free)
      ensures t != 0 && old(Table(mem, d, v / NENT)) == 0 ==> free == old(free)[1..]
      ensures forall j :: 0 <= j < NENT && j != v / NENT ==> Table(mem, d, j) == old(Table(mem, d, j))
      // in the words of the frames themselves
      ensures if mem[d][v / 1024] % 2 == 1 then t == mem[d][v / 1024] / 4096 else t == 0
      ensures old(mem[d][v / 1024]) % 2 == 1 ==> mem == old(mem) && free == old(free)
      ensures old(mem[d][v / 1024]) % 2 == 0 && t != 0 ==>
        && old(free) != [] && t == old(free)[0]
        && mem[d] == old(mem[d])[v / 1024 := 4096 * t + 7] && (forall j :: 0 <= j < 1024 ==> mem[t][j] == 0)
        && forall x :: 0 <= x < |mem| && x != d && x != t ==> mem[x] == old(mem[x])
    {
      hide Ready, Moved, Space, Chained, Owned, Entry, IsUser;
      ReadyMeans(mem, d, free);
      TableIn(mem, d, v / NENT);
      MovedSelf(mem, free, d);
      var pde := mem[d][v / NENT];
      if Present(pde) {
        t := Frame(pde);
      } else if !alloc {
        t := 0;
      } else {
        if free != [] { TableMoved(mem, free, d, v / NENT); }
        t := Kalloc();
        if t != 0 {
          mem := mem[t := Fill(0)];
          mem := mem[d := mem[d][v / NENT := Pack(t, PTE_W + PTE_U)]];
          assert mem == AddTable(old(mem), d, v / NENT, t);
          MovedMeans(old(mem), old(free), mem, free, d, {});
        }
      }
    }

    /** mappages: pages from va on are mapped to frames from pa on; k tells how many, all of them if ok. */
    method Mappages(d: nat, va: nat, size: nat, pa: nat, perm: nat) returns (ok: bool, ghost k: nat)
      requires Valid() && Ready(mem, d, free) && size > 0 && va + size <= 0x1_0000_0000 && pa % 4096 == 0
      requires MapPre(mem, free, d, va / 4096, pa / 4096, PageCount(va, size), perm)
      modifies this
      ensures Valid() && k <= PageCount(va, size) && (ok <==> k == PageCount(va, size)) && (!ok ==> free == [])
      ensures Mapped(old(mem), old(free), mem, free, d, va / 4096, pa / 4096, k, perm)
      ensures ok ==> k == (va + size - 1) / 4096 - va / 4096 + 1
      ensures forall u :: va / 4096 <= u < va / 4096 + k ==>
        Entry(mem, d, u) == 4096 * (pa / 4096 + (u - va / 4096)) + (if perm % 2 == 1 then perm else perm + 1)
      // one page needs at most one frame, for its table
      ensures PageCount(va, size) == 1 ==>
        && (ok <==> old(Table(mem, d, va / 4096 / NENT)) != 0 || old(free) != [])
        && free == (if ok && old(Table(mem, d, va / 4096 / NENT)) == 0 then old(free)[1..] else old(free))
        && (forall j :: 0 <= j < NENT ==> (Table(mem, d, j) != 0 <==> old(Table(mem, d, j)) != 0 || (ok && j == va / 4096 / NENT)))
    {
      hide Ready, Moved, Chained, Owned, Entry, IsUser, Pool, Table, Frame, Present, Pack, MapPre, Mapped, SetEntry, Keeps, SameEntries;
      var a := va / 4096;
      var last := (va + size - 1) / 4096;
      var frame := pa / 4096;
      k, ok := 0, false;
      MappedNone(mem, free, d, a, frame, PageCount(va, size), perm);
      while true
        invariant Valid() && Ready(mem, d, free) && va / 4096 <= a <= last < NPAGES && a == va / 4096 + k && frame == pa / 4096 + k
        invariant Mapped(old(mem), old(free), mem, free, d, va / 4096, pa / 4096, k, perm)
        invariant k == 0 ==> mem == old(mem) && free == old(free)
        decreases last - a
      {
        ghost var m1, f1 := mem, free;
        MapUses(old(mem), old(free), d, va / 4096, pa / 4096, PageCount(va, size), perm);
        var t := Walkpgdir(d, a, true);
        MovedMeans(m1, f1, mem, free, d, {});
        if t == 0 {
          MappedExactly(old(mem), old(free), m1, f1, d, va / 4096, pa / 4096, k, perm);
          return;
        }
        ghost var m2 := mem;
        mem := mem[t := mem[t][a % NENT := Pack(frame, perm)]];
        assert mem == SetEntry(m2, d, a, Pack(frame, perm)) by { SetEntryIs(m2, d, a, Pack(frame, perm), t); }
        MapStep(old(mem), old(free), m1, f1, m2, free, d, va / 4096, pa / 4096, PageCount(va, size), k, perm);
        k := k + 1;
        if a == last {
          break;
        }
        a := a + 1;
        frame := frame + 1;
      }
      MappedExactly(old(mem), old(free), mem, free, d, va / 4096, pa / 4096, k, perm);
      ok := true;
    }

    /** deallocuvm frees the frame of a page and clears its entry. */
    method UnmapPage(d: nat, v: nat, t: nat)
      requires Valid() && Ready(mem, d, free) && v < USER && t == Table(mem, d, v / NENT) && Present(Entry(mem, d, v)) && t < |mem|
      modifies this
      ensures Valid() && Ready(mem, d, free) && Moved(old(mem), old(free), mem, free, d, {}) && mem[d] == old(mem[d])
      ensures Keeps(old(mem), mem, mem, d) && forall y :: IsUser(mem, d, y) ==> IsUser(old(mem), d, y)
      ensures forall u :: 0 <= u < NPAGES ==> Entry(mem, d, u) == if u == v then 0 else old(Entry(mem, d, u))
    {
      hide Ready, Moved, Chained, Owned, Entry, IsUser, Pool, Table, Frame, SetEntry, Keeps;
      ghost var m1, f1 := mem, free;
      ReadyMeans(mem, d, free);
      UnmapMoved(mem, free, d, v);
      ReadEntry(mem, d, v, t);
      var pte := mem[t][v % NENT];
      Kfree(Frame(pte));
      mem := mem[t := mem[t][v % NENT := 0]];
      SetEntryIs(m1, d, v, 0, t);
      assert mem == SetEntry(m1, d, v, 0)[Frame(pte) := Linked(Ptr(Head(f1)))];
      MovedMeans(m1, f1, mem, free, d, {});
    }

    /** deallocuvm: user pages from newsz up to oldsz are given back; directory entries without a table are skipped. */
    method Deallocuvm(d: nat, oldsz: nat, newsz: nat) returns (r: nat)
      requires Valid() && Ready(mem, d, free) && oldsz <= KERNBASE
      modifies this
      ensures Valid() && r == if newsz >= oldsz then oldsz else newsz
      ensures Unmapped(old(mem), old(free), mem, free, d, (newsz + 4095) / 4096, (oldsz + 4095) / 4096)
    {
      hide Ready, Moved, Chained, Owned, Entry, IsUser, Pool, Table, Frame, SetEntry, Keeps, SameEntries, Unmapped;
      ghost var lo, hi := (newsz + 4095) / 4096, (oldsz + 4095) / 4096;
      UnmappedNone(mem, free, d, lo, hi);
      if newsz >= oldsz {
        return oldsz;
      }
      var a := (newsz + 4095) / 4096 * 4096;
      while a < oldsz
        invariant Valid() && Ready(mem, d, free) && a % 4096 == 0 && a >= 4096 * lo
        invariant Unmapped(old(mem), old(free), mem, free, d, lo, if a / 4096 < hi then a / 4096 else hi)
        decreases oldsz - a
      {
        var v := a / 4096;
        ghost var m1, f1 := mem, free;
        var t := Walkpgdir(d, v, false);
        SameAgain(m1, f1, d, v);
        if t == 0 {
          TableEnd(a);
          a := (a / 0x40_0000 + 1) * 0x40_0000 - 4096;
          UnmappedSkip(old(mem), old(free), mem, free, d, lo, v, if a / 4096 + 1 < hi then a / 4096 + 1 else hi);
        } else {
          var pte := mem[t][v % NENT];
          assert pte == Entry(mem, d, v) by { ReadEntry(mem, d, v, t); }
          if Present(pte) {
            UnmapPage(d, v, t);
            UnmappedStep(old(mem), old(free), m1, f1, mem, free, d, lo, v);
          } else {
            UnmappedSkip(old(mem), old(free), mem, free, d, lo, v, v + 1);
          }
        }
        NextPage(a);
        a := a + 4096;
      }
      r := newsz;
    }

    /** allocuvm; ok tells whether the pages are there afterwards. */
    method Allocuvm(d: nat, oldsz: nat, newsz: nat) returns (r: nat, ghost ok: bool)
      requires Valid() && Ready(mem, d, free)
      // mappages panics on a page that is mapped already
      requires newsz < KERNBASE ==> forall u :: (oldsz + 4095) / 4096 <= u < (newsz + 4095) / 4096 ==> !Present(Entry(mem, d, u))
      modifies this
      ensures Valid() && r == if newsz >= KERNBASE then 0 else if newsz < oldsz then oldsz else if ok then newsz else 0
      ensures newsz >= KERNBASE || newsz < oldsz ==> !ok && mem == old(mem) && free == old(free)
      ensures oldsz <= newsz < KERNBASE ==>
        if ok then Grown(old(mem), old(free), mem, free, d, (oldsz + 4095) / 4096, (newsz + 4095) / 4096)
        else Restored(old(mem), old(free), mem, free, d, (oldsz + 4095) / 4096, (newsz + 4095) / 4096)
      ensures forall i :: 0 <= i < 1024 ==>
        mem[d][i] == old(mem[d][i]) || (old(mem[d][i]) % 2 == 0 && mem[d][i] % 4096 == 7)
      // it succeeds exactly when there is a frame for each page and for each missing table
      ensures oldsz <= newsz < KERNBASE ==>
        (ok <==> |old(free)| >= old(Need(mem, d, (oldsz + 4095) / 4096, (newsz + 4095) / 4096)))
    {
      hide Ready, Moved, Chained, Owned, Entry, IsUser, Pool, Table, Frame, Mapped, MapPre, Keeps, Grown, Restored, Unmapped, Need;
      ok := false;
      if newsz >= KERNBASE {
        return 0, ok;
      }
      if newsz < oldsz {
        return oldsz, ok;
      }
      ghost var m0, f0, lo, hi := mem, free, (oldsz + 4095) / 4096, (newsz + 4095) / 4096;
      GrownNone(mem, free, d, lo);
      var a := (oldsz + 4095) / 4096 * 4096;
      while a < newsz
        invariant Valid() && Ready(mem, d, free) && a % 4096 == 0 && lo <= a / 4096 <= (if lo < hi then hi else lo)
        invariant Grown(m0, f0, mem, free, d, lo, a / 4096)
      {
        ghost var m1, f1, v := mem, free, a / 4096;
        GrownMeans(m0, f0, mem, free, d, lo, v);
        NeedMore(m0, d, lo, v, hi);
        CostIs(m0, d, lo, v);
        if free != [] { TakeReady(mem, free, d); }
        var x := Kalloc();
        if x == 0 {
          var _ := Deallocuvm(d, newsz, oldsz);
          GiveUp(m0, f0, m1, f1, mem, free, d, lo, v, hi);
          RestoredMeans(m0, f0, mem, free, d, lo, hi);
          return 0, ok;
        }
        LooseWrite(mem, free, d, x, Fill(0));
        mem := mem[x := Fill(0)];
        ghost var m2, f2 := mem, free;
        AllocPre(m1, f1, m2, d, v);
        ReadyMeans(mem, d, free);
        var mapped;
        ghost var k;
        mapped, k := Mappages(d, a, 4096, 4096 * x, PTE_W + PTE_U);
        ghost var m3, f3 := mem, free;
        MappedMeans(m2, f2, m3, f3, d, v, x, k, PTE_W + PTE_U);
        if !mapped {
          var _ := Deallocuvm(d, newsz, oldsz);
          Unpooled(m2, f2, m3, f3, mem, free, d, lo, v, hi, x);
          GiveUpLate(m0, f0, m1, f1, m2, m3, f3, mem, free, d, lo, v, hi);
          Kfree(x);
          RestoredMeans(m0, f0, mem, free, d, lo, hi);
          return 0, ok;
        }
        AllocStep(m0, f0, m1, f1, m2, m3, f3, d, lo, v);
        a := a + 4096;
      }
      assert a / 4096 == hi;
      GrownMeans(m0, f0, mem, free, d, lo, hi);
      return newsz, true;
    }

    /** freevm: every frame of the address space is given back, once. */
    method Freevm(d: nat)
      requires Valid() && Ready(mem, d, free)
      modifies this
      ensures Valid() && GaveBack(old(mem), old(free), mem, free, d)
    {
      hide Ready, Moved, Chained, Owned, Entry, IsUser, Pool, Table, Frame, Unmapped;
      ghost var m0, f0 := mem, free;
      var _ := Deallocuvm(d, KERNBASE, 0);
      ghost var m1, f1 := mem, free;
      UnmappedMeans(m0, f0, m1, f1, d, 0, USER);
      OnlyTables(m0, f0, m1, f1, d);
      var i := 0;
      while i < NENT
        invariant 0 <= i <= NENT && Valid() && |mem| == |m1| && mem[d] == m1[d]
        invariant forall x :: x in free <==> x in f1 || TableBelow(m1, d, i, x)
        invariant forall x :: 0 <= x < |m1| && x !in free ==> mem[x] == m1[x]
      {
        NextIsFree(m1, f1, d, i);
        if Present(mem[d][i]) {
          Kfree(Frame(mem[d][i]));
        }
        i := i + 1;
      }
      LastIsFree(m1, f1, d);
      Kfree(d);
      AllBack(m0, f0, m1, f1, mem, free, d);
    }

    /** setupkvm: a new address space with the kernel's mappings and nothing else, or 0. */
    method Setupkvm(kmap: seq<Kmap>) returns (r: nat)
      requires Valid() && KmapOk(kmap)
      modifies this
      ensures Valid()
      ensures if r == 0 then SameFrames(old(mem), old(free), mem, free)
              else Built(old(mem), old(free), mem, free, r) && forall u :: 0 <= u < NPAGES ==> Entry(mem, r, u) == KEntry(kmap, u)
      ensures r != 0 ==> forall i :: 0 <= i < 1024 ==> mem[r][i] == 0 || mem[r][i] % 4096 == 7
    {
      hide Ready, Moved, Chained, Owned, Entry, IsUser, Pool, Frame, Mapped, MapPre, Built, GaveBack, SameFrames, KEntry, Sized;
      ghost var m0, f0 := mem, free;
      SameSelf(mem, free);
      r := Kalloc();
      if r == 0 {
        return;
      }
      mem := mem[r := Fill(0)];
      Blank(m0, f0, mem);
      var i := 0;
      while i < |kmap|
        invariant 0 <= i <= |kmap| && Valid() && 0 < r < |mem| && Built(m0, f0, mem, free, r)
        invariant forall u :: 0 <= u < NPAGES ==> Entry(mem, r, u) == KEntry(kmap[..i], u)
      {
        var k := kmap[i];
        ghost var m1, f1 := mem, free;
        KmapPre(m0, f0, m1, f1, r, kmap, i);
        var ok;
        ghost var n;
        ok, n := Mappages(r, k.virt, k.Size(), k.start, k.perm);
        KmapStep(m0, f0, m1, f1, mem, free, r, kmap, i, n);
        if !ok {
          ghost var m2, f2 := mem, free;
          Freevm(r);
          BuiltBack(m0, f0, m2, f2, mem, free, r);
          return 0;
        }
        i := i + 1;
      }
      assert kmap[..i] == kmap;
      BuiltMeans(m0, f0, mem, free, r);
    }

    /** copyuvm: a new address space whose user pages hold the same, in frames of their own, or 0. */
    method Copyuvm(d: nat, sz: nat, kmap: seq<Kmap>) returns (r: nat)
      requires Valid() && Ready(mem, d, free) && KmapOk(kmap) && sz <= KERNBASE
      // copyuvm panics on a page that is not there
      requires forall u :: 0 <= u < (sz + 4095) / 4096 ==> Present(Entry(mem, d, u))
      modifies this
      ensures Valid()
      ensures if r == 0 then SameFrames(old(mem), old(free), mem, free)
              else Built(old(mem), old(free), mem, free, r) && Copied(old(mem), d, mem, r, kmap, (sz + 4095) / 4096)
      ensures r != 0 ==> forall i :: 0 <= i < 1024 ==> mem[r][i] == 0 || mem[r][i] % 4096 == 7
    {
      hide Ready, Moved, Chained, Owned, Entry, IsUser, Pool, Frame, Table, Mapped, MapPre, Built, GaveBack, SameFrames, Copied, Sized, KEntry;
      ghost var m0, f0 := mem, free;
      r := Setupkvm(kmap);
      if r == 0 {
        return;
      }
      BuiltMeans(m0, f0, mem, free, r);
      CopiedNone(m0, f0, mem, free, d, r, kmap);
      var i := 0;
      while i < sz
        invariant Valid() && i % 4096 == 0 && i / 4096 <= (sz + 4095) / 4096
        invariant 0 < r < |mem| && Built(m0, f0, mem, free, r) && Copied(m0, d, mem, r, kmap, i / 4096)
      {
        ghost var m1, f1 := mem, free;
        var v := i / 4096;
        OtherReady(m0, f0, m1, f1, d, r);
        OtherEntry(m0, f0, m1, f1, d, r, v);
        var t := Walkpgdir(d, v, false);
        ReadEntry(mem, d, v, t);
        var pte := mem[t][v % NENT];
        var frame, flags := Frame(pte), Flags(pte);
        BuiltMeans(m0, f0, mem, free, r);
        if free != [] { TakeReady(mem, free, r); }
        var x := Kalloc();
        if x == 0 {
          Freevm(r);
          BuiltBack(m0, f0, m1, f1, mem, free, r);
          return 0;
        }
        LooseWrite(mem, free, r, x, mem[frame]);
        mem := mem[x := mem[frame]];
        ghost var m2, f2 := mem, free;
        CopyPre(m0, m1, f1, m2, d, r, kmap, v, m1[frame], flags);
        ReadyMeans(mem, r, free);
        var ok;
        ghost var k;
        ok, k := Mappages(r, i, 4096, 4096 * x, flags);
        ghost var m3, f3 := mem, free;
        MappedMeans(m2, f2, m3, f3, r, v, x, k, flags);
        if !ok {
          CopyFails(m0, f0, m1, f1, m2, m3, f3, r, v, m1[frame], flags);
          Kfree(x);
          ghost var m4, f4 := mem, free;
          BuiltMeans(m0, f0, m4, f4, r);
          Freevm(r);
          BuiltBack(m0, f0, m4, f4, mem, free, r);
          return 0;
        }
        CopyStep(m0, f0, m1, f1, m2, m3, f3, d, r, kmap, v, frame, flags);
        i := i + 4096;
      }
      BuiltMeans(m0, f0, mem, free, r);
    }
  }

  /** The user pages from lo to hi - 1 that were there are gone, their frames are free, and nothing else has changed:
      what unmapping them one by one leaves. */
  ghost predicate Unmapped(m0: seq<Page>, f0: seq<nat>, m1: seq<Page>, f1: seq<nat>, d: nat, lo: nat, hi: nat) {
    && Moved(m0, f0, m1, f1, d, {}) && m1[d] == m0[d] && Keeps(m0, m1, m1, d)
    && (forall u :: 0 <= u < NPAGES ==>
          Entry(m1, d, u) == if lo <= u < hi && Present(Entry(m0, d, u)) then 0 else Entry(m0, d, u))
    && (forall y :: IsUser(m1, d, y) ==> IsUser(m0, d, y))
  }

  lemma UnmappedNone(m: seq<Page>, f: seq<nat>, d: nat, lo: nat, hi: nat)
    requires Ready(m, d, f)
    ensures forall h {:trigger Unmapped(m, f, m, f, d, lo, h)} :: 0 <= h <= lo ==> Unmapped(m, f, m, f, d, lo, h)
  {
    hide Ready;
    ReadyMeans(m, d, f);
    MovedSelf(m, f, d);
  }

  lemma SameAgain(m: seq<Page>, f: seq<nat>, d: nat, v: nat)
    requires Ready(m, d, f) && v < NPAGES
    ensures 0 < d < |m| && (Table(m, d, v / NENT) == 0 ==> forall u :: v <= u < NPAGES && u / NENT == v / NENT ==> !Present(Entry(m, d, u)))
  {
  }

  lemma ReadEntry(m: seq<Page>, d: nat, v: nat, t: nat)
    requires d < |m| && v < NPAGES && t == Table(m, d, v / NENT) && 0 < t < |m|
    ensures Entry(m, d, v) == m[t][v % NENT]
  {
  }

  lemma NextPage(a: nat)
    requires a % 4096 == 0
    ensures (a + 4096) % 4096 == 0 && (a + 4096) / 4096 == a / 4096 + 1
  {
  }

  /** The last page of the 4 MB that one table maps. */
  lemma TableEnd(a: nat)
    requires a % 4096 == 0
    ensures var b := (a / 0x40_0000 + 1) * 0x40_0000 - 4096;
            b >= a && b % 4096 == 0 && b / 4096 + 1 == (a / 4096 / 1024 + 1) * 1024 && a / 0x40_0000 == a / 4096 / 1024
  {
    var v := a / 4096;
    var k, j := v / 1024, v % 1024;
    assert a == 0x40_0000 * k + 4096 * j && 0 <= 4096 * j < 0x40_0000;
    assert a / 0x40_0000 == k;
    PageOf(1024 * k + 1023);
  }

  lemma PageOf(v: nat)
    ensures 4096 * v % 4096 == 0 && 4096 * v / 4096 == v
  {
  }

  /** Pages that are not there can be passed over. */
  lemma UnmappedSkip(m0: seq<Page>, f0: seq<nat>, m1: seq<Page>, f1: seq<nat>, d: nat, lo: nat, p: nat, q: nat)
    requires Unmapped(m0, f0, m1, f1, d, lo, p) && p <= q && lo <= p
    requires forall u :: p <= u < q && u < NPAGES ==> !Present(Entry(m1, d, u))
    ensures Unmapped(m0, f0, m1, f1, d, lo, q)
  {
    hide Moved, Entry, Keeps, IsUser;
  }

  lemma UnmappedStep(m0: seq<Page>, f0: seq<nat>, m1: seq<Page>, f1: seq<nat>, m2: seq<Page>, f2: seq<nat>, d: nat, lo: nat, v: nat)
    requires Unmapped(m0, f0, m1, f1, d, lo, v) && lo <= v < USER && Moved(m1, f1, m2, f2, d, {}) && m2[d] == m1[d] && Keeps(m1, m2, m2, d)
    requires Present(Entry(m1, d, v))
    requires forall u :: 0 <= u < NPAGES ==> Entry(m2, d, u) == if u == v then 0 else Entry(m1, d, u)
    requires forall y :: IsUser(m2, d, y) ==> IsUser(m1, d, y)
    ensures Unmapped(m0, f0, m2, f2, d, lo, v + 1)
  {
    hide Ready, Pool, Entry, IsUser;
    MovedTwice(m0, f0, m1, f1, m2, f2, d, {}, {});
    var none: set<nat> := {};
    assert none + none == none;
  }

  /** How many pages the bytes from va to va + size - 1 lie in. */
  function PageCount(va: nat, size: nat): (n: int)
    requires size > 0
  {
    (va + size - 1) / 4096 - va / 4096 + 1
  }

  /** The frames that come into an address space when k pages from page a on are mapped to frames from x on. */
  ghost function Gained(a: nat, x: nat, k: nat): (g: set<nat>)
    ensures forall y :: y in g <==> a < USER && x <= y < x + k
  {
    if a >= USER || k == 0 then {} else Gained(a, x, k - 1) + {x + k - 1}
  }

  /** n pages from a on, none of them mapped, may be mapped to frames from x on; those for user pages
      are the caller's, in no list and no address space. */
  ghost predicate MapPre(m: seq<Page>, f: seq<nat>, d: nat, a: nat, x: nat, n: int, perm: nat) {
    && Ready(m, d, f) && 0 < n && a + n <= NPAGES && x + n <= NPAGES && perm < 4096 && (a + n <= USER || a >= USER)
    && (forall u :: a <= u < a + n ==> !Present(Entry(m, d, u)))
    && (a < USER ==> forall y :: x <= y < x + n ==> 0 < y < |m| && !Pool(m, f, d, y))
  }

  ghost predicate Mapped(m0: seq<Page>, f0: seq<nat>, m1: seq<Page>, f1: seq<nat>, d: nat, a: nat, x: nat, k: nat, perm: nat) {
    && Moved(m0, f0, m1, f1, d, Gained(a, x, k)) && Keeps(m0, m1, m0, d) && Opened(m0[d], m1[d])
    && x + k <= NPAGES && perm < 4096
    && (forall u :: 0 <= u < NPAGES ==> Entry(m1, d, u) == if a <= u < a + k then Pack(x + (u - a), perm) else Entry(m0, d, u))
    && (forall y :: y in Gained(a, x, k) ==> y < |m0| && m1[y] == m0[y])
  }

  lemma MappedNone(m: seq<Page>, f: seq<nat>, d: nat, a: nat, x: nat, n: int, perm: nat)
    requires MapPre(m, f, d, a, x, n, perm)
    ensures Mapped(m, f, m, f, d, a, x, 0, perm)
  {
    hide Ready;
    MovedSelf(m, f, d);
    ReadyMeans(m, d, f);
  }

  lemma MapUses(m: seq<Page>, f: seq<nat>, d: nat, a: nat, x: nat, n: int, perm: nat)
    requires MapPre(m, f, d, a, x, n, perm)
    ensures a + n <= NPAGES && x + n <= NPAGES && perm < 4096 && 0 < n
  {
  }

  lemma SetEntryIs(m: seq<Page>, d: nat, v: nat, w: Word, t: nat)
    requires d < |m| && v < NPAGES && t < |m| && t == Table(m, d, v / NENT)
    ensures SetEntry(m, d, v, w) == m[t := m[t][v % NENT := w]]
  {
  }

  /** One round of mappages: walkpgdir leads from (m1, f1) to (m2, f2), then the entry is written. */
  lemma MapStep(m0: seq<Page>, f0: seq<nat>, m1: seq<Page>, f1: seq<nat>, m2: seq<Page>, f2: seq<nat>, d: nat,
                a: nat, x: nat, n: int, k: nat, perm: nat)
    requires MapPre(m0, f0, d, a, x, n, perm) && Mapped(m0, f0, m1, f1, d, a, x, k, perm) && k < n
    requires Moved(m1, f1, m2, f2, d, {}) && SameEntries(m1, m2, d) && Keeps(m1, m2, m1, d) && Table(m2, d, (a + k) / NENT) != 0
    requires Opened(m1[d], m2[d])
    ensures d < |m2| && Mapped(m0, f0, SetEntry(m2, d, a + k, Pack(x + k, perm)), f2, d, a, x, k + 1, perm)
    ensures var m3 := SetEntry(m2, d, a + k, Pack(x + k, perm));
            Ready(m3, d, f2) && Chained(m3, f2) && Sized(m3) && |m3| == |m0| && forall i :: 0 <= i < NENT ==> Table(m3, d, i) == Table(m2, d, i)
  {
    hide Ready, Owned, Entry, Table, SetEntry, Present, Frame, Pack, Pool, IsUser, Keeps, Chained;
    var v, w := a + k, Pack(x + k, perm);
    MovedMeans(m0, f0, m1, f1, d, Gained(a, x, k));
    MovedMeans(m1, f1, m2, f2, d, {});
    var m3 := SetEntry(m2, d, v, w);
    assert a < USER ==> !Pool(m0, f0, d, x + k) && x + k !in Gained(a, x, k);
    assert a < USER ==> !Pool(m1, f1, d, x + k) && !Pool(m2, f2, d, x + k);
    MapMoved(m2, f2, d, v, w);
    MovedMeans(m2, f2, m3, f2, d, if v < USER then {Frame(w)} else {});
    MovedTwice(m0, f0, m1, f1, m2, f2, d, Gained(a, x, k), {});
    MovedTwice(m0, f0, m2, f2, m3, f2, d, Gained(a, x, k) + {}, if v < USER then {Frame(w)} else {});
    assert Gained(a, x, k) + {} + (if v < USER then {Frame(w)} else {}) == Gained(a, x, k + 1);
    MapKept(m0, f0, m1, f1, m2, f2, m3, d, a, x, n, k, perm);
  }

  lemma UsersGrow(m0: seq<Page>, m1: seq<Page>, d: nat)
    requires d < |m0| && d < |m1|
    requires forall u :: 0 <= u < USER && Present(Entry(m0, d, u)) ==> Entry(m1, d, u) == Entry(m0, d, u)
    ensures forall y :: IsUser(m0, d, y) ==> IsUser(m1, d, y)
  {
    hide Entry, Present, Frame;
    forall y | IsUser(m0, d, y) ensures IsUser(m1, d, y) {
      var u :| 0 <= u < USER && Holds(m0, d, u, y);
      assert Holds(m1, d, u, y);
    }
  }

  /** What the user pages hold, old ones and those mapped so far, stays. */
  lemma MapKept(m0: seq<Page>, f0: seq<nat>, m1: seq<Page>, f1: seq<nat>, m2: seq<Page>, f2: seq<nat>, m3: seq<Page>, d: nat,
                a: nat, x: nat, n: int, k: nat, perm: nat)
    requires MapPre(m0, f0, d, a, x, n, perm) && Mapped(m0, f0, m1, f1, d, a, x, k, perm) && k < n
    requires Moved(m1, f1, m2, f2, d, {}) && SameEntries(m1, m2, d) && Keeps(m1, m2, m1, d) && Keeps(m2, m3, m2, d)
    requires forall y :: 0 <= y < |m2| && !Pool(m2, f2, d, y) ==> m3[y] == m2[y]
    ensures Keeps(m0, m3, m0, d)
    ensures forall y :: y in Gained(a, x, k + 1) ==> y < |m0| && m3[y] == m0[y]
  {
    hide Ready, Owned, Entry, Pool, IsUser, Gained, Frame, Pack;
    ReadyMeans(m0, d, f0);
    ReadyMeans(m1, d, f1);
    GainedMore(a, x, k);
    UsersGrow(m0, m1, d);
    UsersGrow(m1, m2, d);
    forall y {:trigger y in Gained(a, x, k + 1)} | y in Gained(a, x, k + 1) ensures y < |m0| && m3[y] == m0[y] {
      if y == x + k {
        assert !Pool(m0, f0, d, y) && y !in Gained(a, x, k) && y < |m0|;
        assert !Pool(m1, f1, d, y);
        assert !Pool(m2, f2, d, y);
        assert m1[y] == m0[y] && m2[y] == m1[y] && m3[y] == m2[y];
      } else {
        var u := a + (y - x);
        assert y in Gained(a, x, k) && u < USER && u < NPAGES;
        assert Entry(m1, d, u) == Pack(y, perm);
        PackIs(y, perm);
        assert Holds(m1, d, u, y);
        IsHeld(m1, d, u, y);
        assert m1[y] == m0[y] && m2[y] == m1[y] && m3[y] == m2[y];
      }
    }
  }

  lemma GainedMore(a: nat, x: nat, k: nat)
    ensures forall y :: y in Gained(a, x, k) <==> a < USER && x <= y < x + k
    ensures forall y {:trigger y in Gained(a, x, k + 1)} :: y in Gained(a, x, k + 1) <==> a < USER && x <= y < x + k + 1
  {
  }

  lemma IsHeld(m: seq<Page>, d: nat, v: nat, x: nat)
    requires d < |m| && Holds(m, d, v, x)
    ensures IsUser(m, d, x)
  {
  }

  lemma TableIn(m: seq<Page>, d: nat, i: nat)
    requires Space(m, d) && i < NENT
    ensures Table(m, d, i) < |m| && (Present(m[d][i]) <==> Table(m, d, i) != 0)
  {
  }

  lemma MovedMeans(m0: seq<Page>, f0: seq<nat>, m1: seq<Page>, f1: seq<nat>, d: nat, gain: set<nat>)
    requires Moved(m0, f0, m1, f1, d, gain)
    ensures Ready(m1, d, f1) && |m1| == |m0| && Space(m1, d) && Chained(m1, f1) && Sized(m1)
  {
  }

  lemma HeadIn(mem: seq<Page>, free: seq<nat>)
    requires Sized(mem) && Chained(mem, free)
    ensures Head(free) < |mem| && (free != [] <==> Head(free) != 0)
  {
    if free != [] { ChainedIn(mem, free, free[0]); }
  }

  /* ---------- Growing a process ---------- */

  /** The frames that page v takes, lo being the first page: its own, and one for a table that is missing. */
  ghost function Cost(m: seq<Page>, d: nat, lo: nat, v: nat): nat
    requires d < |m| && v < NPAGES
  {
    if Table(m, d, v / NENT) == 0 && (v == lo || v % NENT == 0) then 2 else 1
  }

  ghost function Need(m: seq<Page>, d: nat, lo: nat, hi: nat): nat
    requires d < |m| && hi <= NPAGES
  {
    if hi <= lo then 0 else Need(m, d, lo, hi - 1) + Cost(m, d, lo, hi - 1)
  }

  lemma {:induction false} NeedMore(m: seq<Page>, d: nat, lo: nat, v: nat, hi: nat)
    requires d < |m| && lo <= v < hi <= NPAGES
    ensures Need(m, d, lo, v + 1) == Need(m, d, lo, v) + Cost(m, d, lo, v)
    ensures Need(m, d, lo, v + 1) <= Need(m, d, lo, hi)
    decreases hi
  {
    if v + 1 < hi { NeedMore(m, d, lo, v, hi - 1); }
  }

  /** Page u has a frame that was free, filled with zeros, and a program may read and write it. */
  ghost predicate Fresh(f0: seq<nat>, m1: seq<Page>, d: nat, u: nat)
    requires d < |m1| && u < NPAGES
  {
    var w := Entry(m1, d, u);
    && m1[d][u / NENT] % 8 == 7
    && Present(w) && Flags(w) == 1 + PTE_W + PTE_U && Frame(w) in f0 && Frame(w) < |m1| && m1[Frame(w)] == Fill(0)
  }

  /** The pages from lo to hi - 1 are new, and everything else is as it was. */
  ghost predicate Grown(m0: seq<Page>, f0: seq<nat>, m1: seq<Page>, f1: seq<nat>, d: nat, lo: nat, hi: nat) {
    && Moved(m0, f0, m1, f1, d, {}) && Keeps(m0, m1, m0, d) && Opened(m0[d], m1[d]) && hi <= NPAGES
    && (forall u :: 0 <= u < NPAGES ==> if lo <= u < hi then Fresh(f0, m1, d, u) else Entry(m1, d, u) == Entry(m0, d, u))
    && |f0| == |f1| + Need(m0, d, lo, hi) && f1 == f0[|f0| - |f1|..]
    && (forall j :: 0 <= j < NENT ==> (Table(m1, d, j) != 0 <==> Table(m0, d, j) != 0 || (lo < hi && lo / NENT <= j <= (hi - 1) / NENT)))
  }

  /** No page of the failed request is left, and everything else is as it was; page tables may have come. */
  ghost predicate Restored(m0: seq<Page>, f0: seq<nat>, m1: seq<Page>, f1: seq<nat>, d: nat, lo: nat, hi: nat) {
    && Moved(m0, f0, m1, f1, d, {}) && Keeps(m0, m1, m0, d) && Opened(m0[d], m1[d])
    && (forall u :: 0 <= u < NPAGES ==> if lo <= u < hi then !Present(Entry(m1, d, u)) else Entry(m1, d, u) == Entry(m0, d, u))
  }

  lemma GrownNone(m: seq<Page>, f: seq<nat>, d: nat, lo: nat)
    requires Ready(m, d, f) && lo <= NPAGES
    ensures Grown(m, f, m, f, d, lo, lo)
  {
    hide Ready;
    ReadyMeans(m, d, f);
    MovedSelf(m, f, d);
  }

  lemma GrownMeans(m0: seq<Page>, f0: seq<nat>, m1: seq<Page>, f1: seq<nat>, d: nat, lo: nat, v: nat)
    requires Grown(m0, f0, m1, f1, d, lo, v)
    ensures Moved(m0, f0, m1, f1, d, {}) && d < |m0| == |m1| && |f0| == |f1| + Need(m0, d, lo, v) && Opened(m0[d], m1[d])
    ensures lo <= v < NPAGES ==> Entry(m1, d, v) == Entry(m0, d, v)
    ensures lo <= v < NPAGES ==> (Table(m1, d, v / NENT) == 0 <==> Cost(m0, d, lo, v) == 2)
  {
    if lo <= v < NPAGES {
      assert v % NENT != 0 <==> (v - 1) / NENT == v / NENT;
      assert lo / NENT <= v / NENT;
    }
  }

  lemma EntryOpen(m: seq<Page>, d: nat, u: nat)
    requires u < NPAGES
    ensures Space(m, d) && Present(Entry(m, d, u)) ==> m[d][u / NENT] % 8 == 7
  {
    if Space(m, d) && Present(Entry(m, d, u)) { assert Open(m[d]); }
  }

  /** How the hardware finds the page of address va: directory entry, then page table entry. */
  lemma EntryExactly(mem: seq<Page>, d: nat, va: nat)
    requires Space(mem, d) && va < 0x1_0000_0000
    ensures var pde := mem[d][va / 0x40_0000];
            if pde % 2 == 0 then Entry(mem, d, va / 4096) == 0
            else 0 < pde / 4096 < |mem| && Entry(mem, d, va / 4096) == mem[pde / 4096][va / 4096 % 1024]
  {
    hide Owned, IsTable, Holds;
    assert va / 4096 / NENT == va / 0x40_0000;
    TableIn(mem, d, va / 0x40_0000);
  }

  /** A program may read and write every byte of a fresh page, whose frame was free and holds zeros. */
  lemma FreshExactly(f0: seq<nat>, mem: seq<Page>, d: nat, va: nat)
    requires Space(mem, d) && va < KERNBASE && Fresh(f0, mem, d, va / 4096)
    ensures var pde := mem[d][va / 0x40_0000];
            && pde % 8 == 7 && pde / 4096 < |mem|
            && var pte := mem[pde / 4096][va / 4096 % 1024];
               && pte % 4096 == 7 && pte / 4096 in f0 && pte / 4096 < |mem|
               && forall j :: 0 <= j < 1024 ==> mem[pte / 4096][j] == 0
  {
    hide Owned, IsTable, Holds;
    EntryExactly(mem, d, va);
    assert Open(mem[d]);
  }

  /** The frames of an address space: its directory, the tables in it, and the pages below KERNBASE in those. */
  lemma OwnedExactly(mem: seq<Page>, d: nat, x: nat)
    requires Space(mem, d)
    ensures Owned(mem, d, x) <==>
      || x == d
      || (exists i :: 0 <= i < 1024 && mem[d][i] % 2 == 1 && mem[d][i] / 4096 == x)
      || (exists i, j :: 0 <= i < 512 && 0 <= j < 1024 && mem[d][i] % 2 == 1 && mem[d][i] / 4096 < |mem|
            && mem[mem[d][i] / 4096][j] % 2 == 1 && mem[mem[d][i] / 4096][j] / 4096 == x)
  {
    if IsTable(mem, d, x) {
      var i :| 0 <= i < NENT && Table(mem, d, i) == x;
      assert mem[d][i] % 2 == 1 && mem[d][i] / 4096 == x;
    }
    if IsUser(mem, d, x) {
      var v :| 0 <= v < USER && Holds(mem, d, v, x);
      var t := mem[d][v / NENT] / 4096;
      assert mem[t][v % NENT] % 2 == 1 && mem[t][v % NENT] / 4096 == x;
    }
    if i :| 0 <= i < 1024 && mem[d][i] % 2 == 1 && mem[d][i] / 4096 == x {
      assert Present(mem[d][i]) && Table(mem, d, i) == x;
    }
    forall i, j | 0 <= i < 512 && 0 <= j < 1024 && mem[d][i] % 2 == 1 && mem[d][i] / 4096 < |mem|
                  && mem[mem[d][i] / 4096][j] % 2 == 1 && mem[mem[d][i] / 4096][j] / 4096 == x
      ensures IsUser(mem, d, x)
    {
      var v := NENT * i + j;
      assert v / NENT == i && v % NENT == j && Present(mem[d][i]);
      assert Holds(mem, d, v, x);
    }
  }

  lemma RestoredMeans(m0: seq<Page>, f0: seq<nat>, m1: seq<Page>, f1: seq<nat>, d: nat, lo: nat, hi: nat)
    requires Restored(m0, f0, m1, f1, d, lo, hi)
    ensures d < |m0| == |m1| && Opened(m0[d], m1[d])
  {
    hide Pool, Entry, Keeps;
  }

  /** A frame taken off the list and brought into the address space, or put back, has moved like any other. */
  lemma Borrow(m1: seq<Page>, f1: seq<nat>, d: nat, p: Page, mz: seq<Page>, fz: seq<nat>)
    requires Ready(m1, d, f1) && f1 != [] && f1[0] < |m1|
    requires Moved(m1[f1[0] := p], f1[1..], mz, fz, d, {f1[0]})
    ensures Moved(m1, f1, mz, fz, d, {}) && f1[0] != d
  {
    hide Ready, Pool;
    TakeReady(m1, f1, d);
    ReadyMeans(m1, d, f1);
    var x := f1[0];
    TakenPool(m1, f1, d, p);
  }

  lemma TakenPool(m1: seq<Page>, f1: seq<nat>, d: nat, p: Page)
    requires Ready(m1, d, f1) && f1 != [] && f1[0] < |m1|
    ensures d < |m1| && f1[0] != d && forall y :: Pool(m1, f1, d, y) <==> Pool(m1[f1[0] := p], f1[1..], d, y) || y == f1[0]
  {
    hide Owned, Space;
    ReadyMeans(m1, d, f1);
    TakeReady(m1, f1, d);
    LooseWrite(m1, f1[1..], d, f1[0], p);
  }

  lemma AllocPre(m1: seq<Page>, f1: seq<nat>, m2: seq<Page>, d: nat, v: nat)
    requires Ready(m1, d, f1) && f1 != [] && f1[0] < |m1| && m2 == m1[f1[0] := Fill(0)]
    requires v < USER && d < |m1| && !Present(Entry(m1, d, v))
    ensures d < |m2| && f1[0] < NPAGES && MapPre(m2, f1[1..], d, v, f1[0], 1, PTE_W + PTE_U)
  {
    hide Owned, Space, Entry, Present;
    ReadyMeans(m1, d, f1);
    TakeReady(m1, f1, d);
    LooseWrite(m1, f1[1..], d, f1[0], Fill(0));
  }

  lemma MappedMeans(m0: seq<Page>, f0: seq<nat>, m1: seq<Page>, f1: seq<nat>, d: nat, a: nat, x: nat, k: nat, perm: nat)
    requires Mapped(m0, f0, m1, f1, d, a, x, k, perm)
    ensures Ready(m1, d, f1) && |m1| == |m0| && 0 < d < |m1| && Moved(m0, f0, m1, f1, d, Gained(a, x, k))
  {
    hide Ready;
    ReadyMeans(m1, d, f1);
  }

  lemma UnmappedMeans(m0: seq<Page>, f0: seq<nat>, m1: seq<Page>, f1: seq<nat>, d: nat, lo: nat, hi: nat)
    requires Unmapped(m0, f0, m1, f1, d, lo, hi)
    ensures Ready(m1, d, f1) && |m1| == |m0| && 0 < d < |m1| && Moved(m0, f0, m1, f1, d, {})
  {
    hide Ready;
    ReadyMeans(m1, d, f1);
  }

  /** The frame that could not be mapped still belongs to nobody. */
  lemma Unpooled(m2: seq<Page>, f2: seq<nat>, m3: seq<Page>, f3: seq<nat>, m4: seq<Page>, f4: seq<nat>, d: nat, lo: nat, v: nat, hi: nat, x: nat)
    requires MapPre(m2, f2, d, v, x, 1, PTE_W + PTE_U) && v < USER && Mapped(m2, f2, m3, f3, d, v, x, 0, PTE_W + PTE_U)
    requires Unmapped(m3, f3, m4, f4, d, lo, hi)
    ensures 0 < d < |m4| && 0 < x < |m4| && !Pool(m4, f4, d, x) && x !in f4 && Ready(m4, d, f4)
    ensures Moved(m2, f2, m4, f4, d, {})
  {
    hide Ready, Owned, Entry, IsUser;
    UnmappedMeans(m3, f3, m4, f4, d, lo, hi);
    ReadyMeans(m2, d, f2);
    ReadyMeans(m3, d, f3);
    assert Gained(v, x, 0) == {};
    var none: set<nat> := {};
    assert none + none == none;
    MovedTwice(m2, f2, m3, f3, m4, f4, d, none, none);
    assert !Pool(m2, f2, d, x);
  }

  /** Users of the start are users later, as long as nobody touches the entries that were there. */
  lemma GiveUp(m0: seq<Page>, f0: seq<nat>, m1: seq<Page>, f1: seq<nat>, m4: seq<Page>, f4: seq<nat>, d: nat, lo: nat, v: nat, hi: nat)
    requires Grown(m0, f0, m1, f1, d, lo, v) && Unmapped(m1, f1, m4, f4, d, lo, hi) && v <= hi <= NPAGES
    requires d < |m0| && forall u :: lo <= u < hi ==> !Present(Entry(m0, d, u))
    ensures Restored(m0, f0, m4, f4, d, lo, hi)
  {
    hide Ready, Pool, Entry, IsUser, Fresh, Table, Need, Frame;
    var none: set<nat> := {};
    assert none + none == none;
    MovedTwice(m0, f0, m1, f1, m4, f4, d, none, none);
    UsersGrow(m0, m4, d);
  }

  lemma GiveUpLate(m0: seq<Page>, f0: seq<nat>, m1: seq<Page>, f1: seq<nat>, m2: seq<Page>, m3: seq<Page>, f3: seq<nat>, m4: seq<Page>, f4: seq<nat>,
                   d: nat, lo: nat, v: nat, hi: nat)
    requires Grown(m0, f0, m1, f1, d, lo, v) && f1 != [] && f1[0] < |m1| && m2 == m1[f1[0] := Fill(0)] && v < hi <= NPAGES
    requires MapPre(m2, f1[1..], d, v, f1[0], 1, PTE_W + PTE_U) && Mapped(m2, f1[1..], m3, f3, d, v, f1[0], 0, PTE_W + PTE_U)
    requires Unmapped(m3, f3, m4, f4, d, lo, hi) && v < USER
    requires d < |m0| && forall u :: lo <= u < hi ==> !Present(Entry(m0, d, u))
    ensures f1[0] < |m4| && Head(f4) < |m4| && Restored(m0, f0, m4[f1[0] := Linked(Ptr(Head(f4)))], [f1[0]] + f4, d, lo, hi)
  {
    hide Ready, Pool, Entry, IsUser, Fresh, Table, Need, Frame, Owned;
    var x := f1[0];
    GrownMeans(m0, f0, m1, f1, d, lo, v);
    Unpooled(m2, f1[1..], m3, f3, m4, f4, d, lo, v, hi, x);
    GiveReady(m4, f4, d, x);
    var m5, f5 := m4[x := Linked(Ptr(Head(f4)))], [x] + f4;
    var none: set<nat> := {};
    assert none + none == none && none + {x} == {x};
    MovedTwice(m2, f1[1..], m4, f4, m5, f5, d, none, {x});
    Borrow(m1, f1, d, Fill(0), m5, f5);
    MovedTwice(m0, f0, m1, f1, m5, f5, d, none, none);
    LateKept(m0, f0, m1, f1, m2, m3, f3, m4, f4, m5, d, lo, v, hi);
  }

  lemma LateKept(m0: seq<Page>, f0: seq<nat>, m1: seq<Page>, f1: seq<nat>, m2: seq<Page>, m3: seq<Page>, f3: seq<nat>, m4: seq<Page>, f4: seq<nat>,
                 m5: seq<Page>, d: nat, lo: nat, v: nat, hi: nat)
    requires Grown(m0, f0, m1, f1, d, lo, v) && f1 != [] && f1[0] < |m1| && m2 == m1[f1[0] := Fill(0)] && v < hi <= NPAGES
    requires Mapped(m2, f1[1..], m3, f3, d, v, f1[0], 0, PTE_W + PTE_U) && Unmapped(m3, f3, m4, f4, d, lo, hi)
    requires d < |m0| == |m1| == |m4| == |m5| && f1[0] < |m4| && m5 == m4[f1[0] := m5[f1[0]]]
    requires forall u :: 0 <= u < NPAGES ==> Entry(m5, d, u) == Entry(m4, d, u)
    requires forall u :: lo <= u < hi ==> !Present(Entry(m0, d, u))
    ensures Keeps(m0, m5, m0, d)
    ensures forall u :: 0 <= u < NPAGES ==> if lo <= u < hi then !Present(Entry(m5, d, u)) else Entry(m5, d, u) == Entry(m0, d, u)
  {
    hide Ready, Pool, Entry, IsUser, Fresh, Table, Need, Frame, Owned;
    var x := f1[0];
    TakeReady(m1, f1, d);
    LooseWrite(m1, f1[1..], d, x, Fill(0));
    NotUser(m1, f1, d, x);
    UsersGrow(m0, m1, d);
    UsersGrow(m0, m2, d);
    UsersGrow(m0, m4, d);
  }

  lemma NotUser(m: seq<Page>, f: seq<nat>, d: nat, x: nat)
    requires Ready(m, d, f) && x in f
    ensures d < |m| && !IsUser(m, d, x)
  {
  }

  lemma AllocStep(m0: seq<Page>, f0: seq<nat>, m1: seq<Page>, f1: seq<nat>, m2: seq<Page>, m3: seq<Page>, f3: seq<nat>, d: nat, lo: nat, v: nat)
    requires Grown(m0, f0, m1, f1, d, lo, v) && f1 != [] && f1[0] < |m1| && m2 == m1[f1[0] := Fill(0)] && lo <= v < USER
    requires Mapped(m2, f1[1..], m3, f3, d, v, f1[0], 1, PTE_W + PTE_U)
    requires d < |m2| && (Table(m2, d, v / NENT) == 0 ==> |f1| >= 2)
    requires f3 == if Table(m2, d, v / NENT) == 0 then f1[2..] else f1[1..]
    requires d < |m0| && forall u :: lo <= u <= v ==> !Present(Entry(m0, d, u))
    requires d < |m3| && forall j :: 0 <= j < NENT ==> (Table(m3, d, j) != 0 <==> Table(m2, d, j) != 0 || j == v / NENT)
    ensures Grown(m0, f0, m3, f3, d, lo, v + 1)
  {
    hide Ready, Pool, Entry, IsUser, Fresh, Table, Need, Owned, Cost, Pack, Keeps;
    var x := f1[0];
    GrownMeans(m0, f0, m1, f1, d, lo, v);
    NeedMore(m0, d, lo, v, v + 1);
    TakeReady(m1, f1, d);
    LooseWrite(m1, f1[1..], d, x, Fill(0));
    assert Gained(v, x, 1) == {x};
    Borrow(m1, f1, d, Fill(0), m3, f3);
    var none: set<nat> := {};
    assert none + none == none;
    MovedTwice(m0, f0, m1, f1, m3, f3, d, none, none);
    AllocKept(m0, f0, m1, f1, m2, m3, f3, d, lo, v);
    CostIs(m0, d, lo, v);
    forall j | 0 <= j < NENT
      ensures Table(m3, d, j) != 0 <==> Table(m0, d, j) != 0 || (lo < v + 1 && lo / NENT <= j <= v / NENT)
    {
      NextTable(lo, v, j);
    }
  }

  lemma CostIs(m: seq<Page>, d: nat, lo: nat, v: nat)
    requires d < |m| && v < NPAGES
    ensures 1 <= Cost(m, d, lo, v) <= 2
  {
  }

  lemma NextTable(lo: nat, v: nat, j: nat)
    requires lo <= v
    ensures lo / NENT <= j <= v / NENT <==> j == v / NENT || (lo < v && lo / NENT <= j <= (v - 1) / NENT)
  {
  }

  lemma AllocKept(m0: seq<Page>, f0: seq<nat>, m1: seq<Page>, f1: seq<nat>, m2: seq<Page>, m3: seq<Page>, f3: seq<nat>, d: nat, lo: nat, v: nat)
    requires Grown(m0, f0, m1, f1, d, lo, v) && f1 != [] && f1[0] < |m1| && m2 == m1[f1[0] := Fill(0)] && lo <= v < USER
    requires Mapped(m2, f1[1..], m3, f3, d, v, f1[0], 1, PTE_W + PTE_U) && d < |m0| && d < |m3|
    requires forall u :: lo <= u <= v ==> !Present(Entry(m0, d, u))
    ensures Keeps(m0, m3, m0, d)
    ensures forall u :: 0 <= u < NPAGES ==> if lo <= u < v + 1 then Fresh(f0, m3, d, u) else Entry(m3, d, u) == Entry(m0, d, u)
  {
    hide Ready, Pool, Entry, IsUser, Table, Need, Owned, Pack;
    var x := f1[0];
    GrownMeans(m0, f0, m1, f1, d, lo, v);
    TakeReady(m1, f1, d);
    LooseWrite(m1, f1[1..], d, x, Fill(0));
    NotUser(m1, f1, d, x);
    UsersGrow(m1, m2, d);
    UsersGrow(m0, m1, d);
    assert x in f0;
    assert x in Gained(v, x, 1);
    MappedMeans(m2, f1[1..], m3, f3, d, v, x, 1, PTE_W + PTE_U);
    ReadyMeans(m3, d, f3);
    forall u | lo <= u < v + 1 ensures Fresh(f0, m3, d, u) {
      EntryOpen(m3, d, u);
      if u < v {
        assert Fresh(f0, m1, d, u);
        var y := Frame(Entry(m1, d, u));
        assert Holds(m1, d, u, y);
        IsHeld(m1, d, u, y);
      } else {
        PackIs(x, PTE_W + PTE_U);
      }
    }
  }

  lemma MappedExactly(m0: seq<Page>, f0: seq<nat>, m1: seq<Page>, f1: seq<nat>, d: nat, a: nat, x: nat, k: nat, perm: nat)
    requires Mapped(m0, f0, m1, f1, d, a, x, k, perm) && a + k <= NPAGES
    ensures d < |m1| && forall u :: a <= u < a + k ==> Entry(m1, d, u) == 4096 * (x + (u - a)) + (if perm % 2 == 1 then perm else perm + 1)
  {
    hide Ready, Entry, Keeps, Pool;
    MappedMeans(m0, f0, m1, f1, d, a, x, k, perm);
    forall u | a <= u < a + k ensures Entry(m1, d, u) == 4096 * (x + (u - a)) + (if perm % 2 == 1 then perm else perm + 1) {
      assert Entry(m1, d, u) == Pack(x + (u - a), perm);
    }
  }

  lemma PackIs(x: nat, perm: nat)
    requires x < NPAGES && perm < 4096
    ensures Present(Pack(x, perm)) && Frame(Pack(x, perm)) == x && Flags(Pack(x, perm)) == if perm % 2 == 1 then perm else perm + 1
    ensures Pack(x, perm) == 4096 * x + (if perm % 2 == 1 then perm else perm + 1)
  {
  }

  /* ---------- Giving an address space back ---------- */

  /** All its frames are free now, in addition to those that were, and no other frame was written to. */
  ghost predicate GaveBack(m0: seq<Page>, f0: seq<nat>, m1: seq<Page>, f1: seq<nat>, d: nat)
    requires d < |m0|
  {
    && Sized(m1) && |m1| == |m0| && Chained(m1, f1)
    && (forall x :: x in f1 <==> Pool(m0, f0, d, x))
    && (forall x :: 0 <= x < |m0| && !Pool(m0, f0, d, x) ==> m1[x] == m0[x])
  }

  ghost predicate TableBelow(m: seq<Page>, d: nat, i: nat, x: nat)
    requires d < |m| && i <= NENT
  {
    x != 0 && exists j :: 0 <= j < i && Table(m, d, j) == x
  }

  /** With all user memory deallocated the directory and the tables are all that is left. */
  lemma OnlyTables(m0: seq<Page>, f0: seq<nat>, m1: seq<Page>, f1: seq<nat>, d: nat)
    requires Unmapped(m0, f0, m1, f1, d, 0, USER)
    ensures d < |m1| && forall x :: Pool(m1, f1, d, x) <==> x in f1 || x == d || TableBelow(m1, d, NENT, x)
    ensures forall x :: x in f1 ==> !TableBelow(m1, d, NENT, x)
    ensures forall i: nat, x: nat :: 0 <= i <= NENT && TableBelow(m1, d, i, x) ==> x != d && x < |m1|
  {
    hide Entry, Chained;
    forall u, x ensures !Holds(m1, d, u, x) {}
  }

  lemma NextIsFree(m1: seq<Page>, f1: seq<nat>, d: nat, i: nat)
    requires Ready(m1, d, f1) && i < NENT
    ensures Present(m1[d][i]) ==> var x := Frame(m1[d][i]); 0 < x < |m1| && x != d && x !in f1 && !TableBelow(m1, d, i, x)
    ensures forall x :: TableBelow(m1, d, i + 1, x) <==> TableBelow(m1, d, i, x) || (Present(m1[d][i]) && x == Frame(m1[d][i]))
  {
    if Present(m1[d][i]) { HasTable(m1, d, i); assert IsTable(m1, d, Frame(m1[d][i])); }
  }

  lemma LastIsFree(m1: seq<Page>, f1: seq<nat>, d: nat)
    requires Ready(m1, d, f1)
    ensures 0 < d < |m1| && d !in f1 && !TableBelow(m1, d, NENT, d)
  {
  }

  lemma AllBack(m0: seq<Page>, f0: seq<nat>, m1: seq<Page>, f1: seq<nat>, m2: seq<Page>, f2: seq<nat>, d: nat)
    requires Moved(m0, f0, m1, f1, d, {}) && |m2| == |m1| && 0 < d < |m1| && Sized(m2) && Chained(m2, f2)
    requires forall x :: Pool(m1, f1, d, x) <==> x in f1 || x == d || TableBelow(m1, d, NENT, x)
    requires forall x :: x in f2 <==> x in f1 || TableBelow(m1, d, NENT, x) || x == d
    requires forall x :: 0 <= x < |m1| && x !in f2 ==> m2[x] == m1[x]
    ensures GaveBack(m0, f0, m2, f2, d)
  {
    hide Ready, Pool;
    forall x ensures x in f2 <==> Pool(m0, f0, d, x) {
      assert Pool(m1, f1, d, x) <==> Pool(m0, f0, d, x);
    }
  }

  /* ---------- New address spaces ---------- */

  datatype Kmap = Kmap(virt: nat, start: nat, end: nat, perm: nat) {
    /** phys_end - phys_start, in 32-bit arithmetic */
    function Size(): nat {
      (end - start) % 0x1_0000_0000
    }

    predicate Ok() {
      && virt % 4096 == 0 && start % 4096 == 0 && Size() > 0 && Size() % 4096 == 0 && perm < 4096
      && KERNBASE <= virt && virt + Size() <= 0x1_0000_0000 && start + Size() <= 0x1_0000_0000
    }

    predicate Covers(u: nat) {
      virt / 4096 <= u < (virt + Size()) / 4096
    }
  }

  /** Page-aligned ranges above KERNBASE, no page in two of them. */
  ghost predicate KmapOk(kmap: seq<Kmap>) {
    && (forall k :: 0 <= k < |kmap| ==> kmap[k].Ok())
    && (forall j, k, u :: 0 <= j < k < |kmap| && kmap[j].Covers(u) ==> !kmap[k].Covers(u))
  }

  /** What the table of kernel mappings says about page u. */
  ghost function KEntry(kmap: seq<Kmap>, u: nat): Word
    requires forall k :: 0 <= k < |kmap| ==> kmap[k].Ok()
  {
    if kmap == [] then 0
    else
      var k := kmap[|kmap| - 1];
      assert k.Ok();
      if k.Covers(u) then Pack(k.start / 4096 + (u - k.virt / 4096), k.perm) else KEntry(kmap[..|kmap| - 1], u)
  }

  lemma {:induction false} KEntryUser(kmap: seq<Kmap>, u: nat)
    requires forall k :: 0 <= k < |kmap| ==> kmap[k].Ok()
    ensures u < USER ==> KEntry(kmap, u) == 0
    ensures (forall k :: 0 <= k < |kmap| ==> !kmap[k].Covers(u)) ==> KEntry(kmap, u) == 0
  {
    if kmap != [] { KEntryUser(kmap[..|kmap| - 1], u); }
  }

  /** Each range of the table, page by page, and nothing outside. */
  lemma KEntryExactly(kmap: seq<Kmap>, u: nat)
    requires KmapOk(kmap)
    ensures forall k :: 0 <= k < |kmap| && kmap[k].virt / 4096 <= u < (kmap[k].virt + (kmap[k].end - kmap[k].start) % 0x1_0000_0000) / 4096 ==>
      KEntry(kmap, u) == 4096 * (kmap[k].start / 4096 + (u - kmap[k].virt / 4096)) + (if kmap[k].perm % 2 == 1 then kmap[k].perm else kmap[k].perm + 1)
    ensures (forall k :: 0 <= k < |kmap| ==> !(kmap[k].virt / 4096 <= u < (kmap[k].virt + (kmap[k].end - kmap[k].start) % 0x1_0000_0000) / 4096)) ==>
      KEntry(kmap, u) == 0
  {
    hide KEntry, Pack;
    forall k | 0 <= k < |kmap| ensures kmap[k].Covers(u) <==> kmap[k].virt / 4096 <= u < (kmap[k].virt + (kmap[k].end - kmap[k].start) % 0x1_0000_0000) / 4096 {}
    forall k | 0 <= k < |kmap| && kmap[k].Covers(u)
      ensures KEntry(kmap, u) == 4096 * (kmap[k].start / 4096 + (u - kmap[k].virt / 4096)) + (if kmap[k].perm % 2 == 1 then kmap[k].perm else kmap[k].perm + 1)
    {
      KEntryAt(kmap, k, u);
    }
    KEntryUser(kmap, u);
  }

  lemma {:induction false} KEntryAt(kmap: seq<Kmap>, k: nat, u: nat)
    requires KmapOk(kmap) && k < |kmap| && kmap[k].Covers(u)
    ensures KEntry(kmap, u) == 4096 * (kmap[k].start / 4096 + (u - kmap[k].virt / 4096)) + (if kmap[k].perm % 2 == 1 then kmap[k].perm else kmap[k].perm + 1)
  {
    hide Pack, Flags, Frame, Present;
    if k == |kmap| - 1 {
      assert kmap[k].Ok();
      PackIs(kmap[k].start / 4096 + (u - kmap[k].virt / 4096), kmap[k].perm);
    } else {
      KEntryAt(kmap[..|kmap| - 1], k, u);
    }
  }

  /** The free frames are the same, in whatever order, and no other frame was written to. */
  ghost predicate SameFrames(m0: seq<Page>, f0: seq<nat>, m1: seq<Page>, f1: seq<nat>) {
    && |m1| == |m0|
    && (forall x :: x in f1 <==> x in f0)
    && (forall x :: 0 <= x < |m0| && x !in f0 ==> m1[x] == m0[x])
  }

  lemma SameSelf(m: seq<Page>, f: seq<nat>)
    ensures SameFrames(m, f, m, f)
  {
  }

  /** The address space r was made of frames that were free, and no other frame was written to. */
  ghost predicate Built(m0: seq<Page>, f0: seq<nat>, m1: seq<Page>, f1: seq<nat>, r: nat) {
    && Ready(m1, r, f1) && |m1| == |m0|
    && (forall x :: Pool(m1, f1, r, x) <==> x in f0)
    && (forall x :: 0 <= x < |m0| && x !in f0 ==> m1[x] == m0[x])
    && (forall i :: 0 <= i < NENT ==> m1[r][i] == 0 || m1[r][i] % 4096 == 7)
  }

  lemma BuiltMoved(m0: seq<Page>, f0: seq<nat>, m1: seq<Page>, f1: seq<nat>, m2: seq<Page>, f2: seq<nat>, r: nat)
    requires Built(m0, f0, m1, f1, r) && Moved(m1, f1, m2, f2, r, {}) && r < |m1| == |m2| && Opened(m1[r], m2[r])
    ensures Built(m0, f0, m2, f2, r)
  {
    hide Ready, Pool;
    ReadyMeans(m1, r, f1);
    ReadyMeans(m2, r, f2);
  }

  lemma BuiltBack(m0: seq<Page>, f0: seq<nat>, m1: seq<Page>, f1: seq<nat>, m2: seq<Page>, f2: seq<nat>, r: nat)
    requires Built(m0, f0, m1, f1, r) && r < |m1| && GaveBack(m1, f1, m2, f2, r)
    ensures SameFrames(m0, f0, m2, f2)
  {
    hide Ready, Pool;
  }

  /** A zeroed frame is a directory without tables. */
  lemma Blank(m0: seq<Page>, f0: seq<nat>, m1: seq<Page>)
    requires Sized(m0) && Chained(m0, f0) && f0 != [] && f0[0] < |m0| && |m1| == |m0|
    requires (forall i :: 0 <= i < NENT ==> m1[f0[0]][i] == 0) && forall x :: 0 <= x < |m0| && x != f0[0] ==> m1[x] == m0[x]
    ensures Sized(m1) && 0 < f0[0] < |m1| && Built(m0, f0, m1, f0[1..], f0[0]) && Chained(m1, f0[1..])
    ensures forall u :: 0 <= u < NPAGES ==> Entry(m1, f0[0], u) == KEntry([], u)
  {
    hide Space, Owned, Entry, Chained, KEntry, Built;
    ChainedTail(m0, f0);
    ChainedFrame(m0, m1, f0[1..]);
    BlankSpace(m1, f0[0]);
    BuiltBlank(m0, f0, m1, f0[1..], f0[0]);
    forall u ensures KEntry([], u) == 0 { KEntryUser([], u); }
  }

  lemma BuiltBlank(m0: seq<Page>, f0: seq<nat>, m1: seq<Page>, f1: seq<nat>, r: nat)
    requires Space(m1, r) && Chained(m1, f1) && r !in f1 && |m1| == |m0|
    requires forall x :: Owned(m1, r, x) <==> x == r
    requires forall x :: x in f0 <==> x == r || x in f1
    requires forall x :: 0 <= x < |m0| && x != r ==> m1[x] == m0[x]
    requires r < |m1| && forall i :: 0 <= i < NENT ==> m1[r][i] == 0
    ensures Built(m0, f0, m1, f1, r)
  {
    hide Space, Owned, Chained, Sized;
  }

  lemma ChainedTail(m: seq<Page>, f: seq<nat>)
    requires Sized(m) && Chained(m, f) && f != []
    ensures Chained(m, f[1..]) && 0 < f[0] < |m| && f[0] !in f[1..]
    ensures forall x :: x in f <==> x == f[0] || x in f[1..]
  {
  }

  lemma BlankSpace(m: seq<Page>, r: nat)
    requires Sized(m) && 0 < r < |m| && forall i :: 0 <= i < NENT ==> m[r][i] == 0
    ensures Space(m, r) && forall x :: Owned(m, r, x) <==> x == r
    ensures forall u :: 0 <= u < NPAGES ==> Entry(m, r, u) == 0
  {
    hide Entry;
    assert forall i :: 0 <= i < NENT ==> Table(m, r, i) == 0;
    forall u | 0 <= u < NPAGES ensures Entry(m, r, u) == 0 { NoEntry(m, r, u); }
    forall v, x ensures !Holds(m, r, v, x) {}
    forall x ensures !IsTable(m, r, x) && !IsUser(m, r, x) {}
  }

  lemma NoEntry(m: seq<Page>, r: nat, u: nat)
    requires r < |m| && u < NPAGES && Table(m, r, u / NENT) == 0
    ensures Entry(m, r, u) == 0
  {
  }

  lemma KmapPre(m0: seq<Page>, f0: seq<nat>, m1: seq<Page>, f1: seq<nat>, r: nat, kmap: seq<Kmap>, i: nat)
    requires Built(m0, f0, m1, f1, r) && KmapOk(kmap) && i < |kmap| && r < |m1|
    requires forall u :: 0 <= u < NPAGES ==> Entry(m1, r, u) == KEntry(kmap[..i], u)
    ensures var k := kmap[i];
            && Ready(m1, r, f1) && k.Ok()
            && MapPre(m1, f1, r, k.virt / 4096, k.start / 4096, PageCount(k.virt, k.Size()), k.perm)
  {
    hide Ready, Pool, Entry, KEntry;
    var k := kmap[i];
    forall u | k.virt / 4096 <= u < k.virt / 4096 + PageCount(k.virt, k.Size()) ensures !Present(Entry(m1, r, u)) {
      assert k.Covers(u);
      KEntryUser(kmap[..i], u);
    }
  }

  lemma KmapStep(m0: seq<Page>, f0: seq<nat>, m1: seq<Page>, f1: seq<nat>, m2: seq<Page>, f2: seq<nat>, r: nat, kmap: seq<Kmap>, i: nat, n: nat)
    requires Built(m0, f0, m1, f1, r) && KmapOk(kmap) && i < |kmap| && r < |m1|
    requires forall u :: 0 <= u < NPAGES ==> Entry(m1, r, u) == KEntry(kmap[..i], u)
    requires var k := kmap[i]; Mapped(m1, f1, m2, f2, r, k.virt / 4096, k.start / 4096, n, k.perm) && n <= PageCount(k.virt, k.Size())
    ensures 0 < r < |m2| && Built(m0, f0, m2, f2, r) && Ready(m2, r, f2)
    ensures n == PageCount(kmap[i].virt, kmap[i].Size()) ==> forall u :: 0 <= u < NPAGES ==> Entry(m2, r, u) == KEntry(kmap[..i + 1], u)
  {
    hide Ready, Pool, Entry, Keeps;
    var k := kmap[i];
    MappedMeans(m1, f1, m2, f2, r, k.virt / 4096, k.start / 4096, n, k.perm);
    assert Gained(k.virt / 4096, k.start / 4096, n) == {};
    BuiltMoved(m0, f0, m1, f1, m2, f2, r);
    assert kmap[..i + 1][..i] == kmap[..i];
  }

  /* ---------- Copies ---------- */

  /** Page u of r has the flags and the contents of page u of d, in a frame of its own. */
  ghost predicate SamePage(m0: seq<Page>, d: nat, m1: seq<Page>, r: nat, u: nat)
    requires d < |m0| && r < |m1| && u < NPAGES
  {
    var w, z := Entry(m0, d, u), Entry(m1, r, u);
    Present(z) && Flags(z) == Flags(w) && Frame(z) < |m1| && Frame(w) < |m0| && m1[Frame(z)] == m0[Frame(w)]
  }

  /** The first n pages are copies, the other user pages are not there, the kernel's pages are mapped. */
  ghost predicate Copied(m0: seq<Page>, d: nat, m1: seq<Page>, r: nat, kmap: seq<Kmap>, n: nat) {
    && d < |m0| && r < |m1| && n <= USER && KmapOk(kmap)
    && forall u :: 0 <= u < NPAGES ==> if u < n then SamePage(m0, d, m1, r, u) else Entry(m1, r, u) == KEntry(kmap, u)
  }

  /** The byte at va of the copy is the byte at va of the original, and may be used in the same ways. */
  lemma CopiedExactly(m0: seq<Page>, d: nat, m1: seq<Page>, r: nat, kmap: seq<Kmap>, n: nat, va: nat)
    requires Space(m0, d) && Space(m1, r) && Copied(m0, d, m1, r, kmap, n) && va < 4096 * n && Present(Entry(m0, d, va / 4096))
    ensures m0[d][va / 0x40_0000] / 4096 < |m0| && m1[r][va / 0x40_0000] / 4096 < |m1| && m1[r][va / 0x40_0000] % 8 == 7
    ensures var w, z := m0[m0[d][va / 0x40_0000] / 4096][va / 4096 % 1024], m1[m1[r][va / 0x40_0000] / 4096][va / 4096 % 1024];
            && z % 4096 == w % 4096 && w / 4096 < |m0| && z / 4096 < |m1|
            && m1[z / 4096][va % 4096 / 4] == m0[w / 4096][va % 4096 / 4]
  {
    hide Owned, IsTable, Holds, KmapOk, KEntry, Entry, Space;
    EntryExactly(m0, d, va);
    EntryExactly(m1, r, va);
    EntryOpen(m1, r, va / 4096);
    assert SamePage(m0, d, m1, r, va / 4096);
  }

  lemma CopiedNone(m0: seq<Page>, f0: seq<nat>, m1: seq<Page>, f1: seq<nat>, d: nat, r: nat, kmap: seq<Kmap>)
    requires Ready(m0, d, f0) && Built(m0, f0, m1, f1, r) && KmapOk(kmap) && r < |m1|
    requires forall u :: 0 <= u < NPAGES ==> Entry(m1, r, u) == KEntry(kmap, u)
    ensures 0 < r < |m1| && Copied(m0, d, m1, r, kmap, 0)
  {
    hide Ready, Pool, Entry, KEntry, KmapOk;
    ReadyMeans(m0, d, f0);
    ReadyMeans(m1, r, f1);
  }

  lemma BuiltMeans(m0: seq<Page>, f0: seq<nat>, m1: seq<Page>, f1: seq<nat>, r: nat)
    requires Built(m0, f0, m1, f1, r)
    ensures Ready(m1, r, f1) && |m1| == |m0| && 0 < r < |m1|
    ensures forall i :: 0 <= i < NENT ==> m1[r][i] == 0 || m1[r][i] % 4096 == 7
  {
    hide Ready;
    ReadyMeans(m1, r, f1);
  }

  /** Making r leaves every other address space as it was: its frames were not free. */
  lemma OtherReady(m0: seq<Page>, f0: seq<nat>, m1: seq<Page>, f1: seq<nat>, d: nat, r: nat)
    requires Ready(m0, d, f0) && Built(m0, f0, m1, f1, r)
    ensures 0 < d < |m0| == |m1| && Ready(m1, d, f1)
    ensures forall u :: 0 <= u < NPAGES ==> Entry(m1, d, u) == Entry(m0, d, u)
    ensures forall i :: 0 <= i < NENT ==> Table(m1, d, i) == Table(m0, d, i)
    ensures forall x :: 0 <= x < |m0| && Owned(m0, d, x) ==> m1[x] == m0[x] && !Owned(m1, r, x)
  {
    hide Space, Table, Entry, IsUser, IsTable;
    ReadyMeans(m0, d, f0);
    ReadyMeans(m1, r, f1);
    SpaceFrame(m0, m1, d);
    forall x | x in f1 ensures !Owned(m1, d, x) { assert Pool(m1, f1, r, x); }
    forall x | Owned(m1, r, x) ensures x in f0 { assert Pool(m1, f1, r, x); }
  }

  lemma OtherEntry(m0: seq<Page>, f0: seq<nat>, m1: seq<Page>, f1: seq<nat>, d: nat, r: nat, u: nat)
    requires Ready(m0, d, f0) && Built(m0, f0, m1, f1, r) && u < USER && 0 < d < |m0| == |m1| && Present(Entry(m0, d, u))
    ensures var y := Frame(Entry(m0, d, u)); y < |m0| && m1[y] == m0[y]
    ensures Entry(m1, d, u) == Entry(m0, d, u) && Table(m1, d, u / NENT) != 0
  {
    hide Space, Table, Entry, Frame;
    OtherReady(m0, f0, m1, f1, d, r);
    var y := Frame(Entry(m0, d, u));
    assert Holds(m0, d, u, y);
    IsHeld(m0, d, u, y);
    UserApart(m0, d);
    EntryTable(m1, d, u);
  }

  lemma CopyPre(m0: seq<Page>, m1: seq<Page>, f1: seq<nat>, m2: seq<Page>, d: nat, r: nat, kmap: seq<Kmap>, v: nat, p: Page, perm: nat)
    requires Ready(m1, r, f1) && f1 != [] && f1[0] < |m1| && m2 == m1[f1[0] := p] && perm < 4096
    requires Copied(m0, d, m1, r, kmap, v) && v < USER
    ensures f1[0] < NPAGES && MapPre(m2, f1[1..], r, v, f1[0], 1, perm)
  {
    hide Owned, Space, Entry, KEntry, SamePage;
    ReadyMeans(m1, r, f1);
    TakeReady(m1, f1, r);
    LooseWrite(m1, f1[1..], r, f1[0], p);
    KEntryUser(kmap, v);
    assert Entry(m2, r, v) == KEntry(kmap, v) == 0;
  }

  /** The page could not be mapped: with its frame given back, everything taken is still r's or free. */
  lemma CopyFails(m0: seq<Page>, f0: seq<nat>, m1: seq<Page>, f1: seq<nat>, m2: seq<Page>, m3: seq<Page>, f3: seq<nat>, r: nat, v: nat, p: Page, perm: nat)
    requires Built(m0, f0, m1, f1, r) && f1 != [] && f1[0] < |m1| && m2 == m1[f1[0] := p]
    requires MapPre(m2, f1[1..], r, v, f1[0], 1, perm) && v < USER && Mapped(m2, f1[1..], m3, f3, r, v, f1[0], 0, perm)
    ensures 0 < f1[0] < |m3| && f1[0] !in f3 && Head(f3) < |m3|
    ensures Built(m0, f0, m3[f1[0] := Linked(Ptr(Head(f3)))], [f1[0]] + f3, r)
  {
    hide Ready, Owned, Entry, Keeps, Built;
    var x := f1[0];
    BuiltMeans(m0, f0, m1, f1, r);
    MappedMeans(m2, f1[1..], m3, f3, r, v, x, 0, perm);
    assert Gained(v, x, 0) == {} && !Pool(m2, f1[1..], r, x) && !Pool(m3, f3, r, x);
    GiveReady(m3, f3, r, x);
    var m4, f4 := m3[x := Linked(Ptr(Head(f3)))], [x] + f3;
    var none: set<nat> := {};
    assert none + {x} == {x};
    MovedTwice(m2, f1[1..], m3, f3, m4, f4, r, none, {x});
    Borrow(m1, f1, r, p, m4, f4);
    BuiltMoved(m0, f0, m1, f1, m4, f4, r);
  }

  lemma CopyStep(m0: seq<Page>, f0: seq<nat>, m1: seq<Page>, f1: seq<nat>, m2: seq<Page>, m3: seq<Page>, f3: seq<nat>,
                 d: nat, r: nat, kmap: seq<Kmap>, v: nat, y: nat, perm: nat)
    requires Built(m0, f0, m1, f1, r) && Copied(m0, d, m1, r, kmap, v) && v < USER
    requires f1 != [] && f1[0] < |m1| && y < |m1| && m2 == m1[f1[0] := m1[y]]
    requires var w := Entry(m0, d, v); Present(w) && Frame(w) == y && Flags(w) == perm && y < |m0| && m1[y] == m0[y]
    requires Mapped(m2, f1[1..], m3, f3, r, v, f1[0], 1, perm)
    ensures 0 < r < |m3| && Built(m0, f0, m3, f3, r) && Copied(m0, d, m3, r, kmap, v + 1)
  {
    hide Ready, Owned, Entry, Keeps, Built, Copied, Pool, Moved;
    var x := f1[0];
    BuiltMeans(m0, f0, m1, f1, r);
    MappedMeans(m2, f1[1..], m3, f3, r, v, x, 1, perm);
    assert Gained(v, x, 1) == {x};
    Borrow(m1, f1, r, m1[y], m3, f3);
    BuiltMoved(m0, f0, m1, f1, m3, f3, r);
    CopyKept(m0, m1, f1, m2, m3, f3, d, r, kmap, v, y, perm);
  }

  lemma CopyKept(m0: seq<Page>, m1: seq<Page>, f1: seq<nat>, m2: seq<Page>, m3: seq<Page>, f3: seq<nat>,
                 d: nat, r: nat, kmap: seq<Kmap>, v: nat, y: nat, perm: nat)
    requires Ready(m1, r, f1) && Copied(m0, d, m1, r, kmap, v) && v < USER && r < |m3| == |m1|
    requires f1 != [] && f1[0] < |m1| && y < |m1| && m2 == m1[f1[0] := m1[y]]
    requires var w := Entry(m0, d, v); Present(w) && Frame(w) == y && Flags(w) == perm && y < |m0| && m1[y] == m0[y]
    requires Mapped(m2, f1[1..], m3, f3, r, v, f1[0], 1, perm)
    ensures Copied(m0, d, m3, r, kmap, v + 1)
  {
    hide Ready, Owned, Entry, KEntry, KmapOk, Pool, IsUser, Pack, Moved;
    var x := f1[0];
    ReadyMeans(m1, r, f1);
    TakeReady(m1, f1, r);
    LooseWrite(m1, f1[1..], r, x, m1[y]);
    NotUser(m1, f1, r, x);
    UsersGrow(m1, m2, r);
    assert x in Gained(v, x, 1);
    forall u | 0 <= u < v + 1 ensures SamePage(m0, d, m3, r, u) {
      if u < v {
        assert SamePage(m0, d, m1, r, u);
        var z := Frame(Entry(m1, r, u));
        assert Holds(m1, r, u, z);
        IsHeld(m1, r, u, z);
      } else {
        PackIs(x, perm);
        FlagsOdd(Entry(m0, d, v));
      }
    }
  }

  lemma FlagsOdd(w: Word)
    requires Present(w)
    ensures Flags(w) % 2 == 1
  {
  }
}
