/** The buffer cache: a fixed pool of buffers on a circular doubly linked list,
    most recently released first, in front of one disk. */
module Bio {
  import opened Blocks

  const NBUF := 30
  const ROOTDEV := 1

  type DiskMap = map<nat, Block>

  /** One atomic block write, as it reached the disk. */
  datatype DiskWrite = DiskWrite(blockno: nat, data: Block)

  class Disk {
    var blocks: DiskMap
    ghost var writes: seq<DiskWrite>  // every write since power-on, oldest first

    constructor (blocks: DiskMap)
      ensures this.blocks == blocks && writes == []
    {
      this.blocks, writes := blocks, [];
    }

    method Write(n: nat, data: Block)
      requires n in blocks
      modifies this
      ensures blocks == old(blocks)[n := data]
      ensures writes == old(writes) + [DiskWrite(n, data)]
    {
      blocks, writes := blocks[n := data], writes + [DiskWrite(n, data)];
    }
  }

  class Buf {
    var valid: bool
    var dirty: bool
    var dev: nat
    var blockno: nat
    var refcnt: nat
    var prev: Buf
    var next: Buf
    var data: Block

    constructor ()
      ensures Get() == UNUSED_SLOT
    {
      valid, dirty, dev, blockno, refcnt := false, false, 0, 0, 0;
      data := ZeroBlock();
      prev, next := this, this;
    }

    /** Everything but the list pointers. */
    function Get(): Slot
      reads this`valid, this`dirty, this`dev, this`blockno, this`refcnt, this`data
    {
      Slot(dev, blockno, valid, dirty, refcnt, data)
    }

    method Set(t: Slot)
      modifies this`valid, this`dirty, this`dev, this`blockno, this`refcnt, this`data
      ensures Get() == t
    {
      dev, blockno, valid, dirty, refcnt, data := t.dev, t.blockno, t.valid, t.dirty, t.refcnt, t.data;
    }
  }

  /* ---------- What the pool holds, as values ---------- */

  datatype Slot = Slot(dev: nat, blockno: nat, valid: bool, dirty: bool, refcnt: nat, data: Block)
  {
    /** The test of the recycling loop of bget and of isBufFull. */
    predicate Available() { refcnt == 0 && !dirty }
  }

  const UNUSED_SLOT := Slot(0, 0, false, false, 0, ZeroBlock())

  type Slots = map<Buf, Slot>

  /** cached says where each block is, so no block is in two buffers. Device 0 marks
      a buffer that never held anything: all of them start with block number 0. */
  ghost predicate Indexed(s: Slots, cached: map<nat, Buf>) {
    && (forall b :: b in s && s[b].dev != 0 ==>
          s[b].dev == ROOTDEV && s[b].blockno in cached && cached[s[b].blockno] == b)
    && (forall b :: b in s && s[b].dev == 0 ==> !s[b].valid && !s[b].dirty && s[b].refcnt == 0)
    && (forall b :: b in s && s[b].dirty ==> s[b].valid)
    && (forall n :: n in cached ==> cached[n] in s && s[cached[n]].dev == ROOTDEV && s[cached[n]].blockno == n)
  }

  /** The contents a reader sees: the cached copy when there is one. */
  ghost function View(s: Slots, cached: map<nat, Buf>, disk: DiskMap): (v: DiskMap)
    requires Indexed(s, cached)
    ensures v.Keys == disk.Keys
  {
    map n | n in disk :: if n in cached && s[cached[n]].valid then s[cached[n]].data else disk[n]
  }

  /** The blocks held by a dirty buffer. */
  ghost function Pinned(s: Slots, cached: map<nat, Buf>): set<nat>
    requires Indexed(s, cached)
  {
    set n | n in cached && s[cached[n]].dirty
  }

  /** The buffers some caller has not released. */
  ghost function Held(s: Slots): set<Buf> {
    set b | b in s && s[b].refcnt > 0
  }

  /** No modification is outside both the disk and the dirty buffers. */
  ghost predicate Coherence(s: Slots, cached: map<nat, Buf>, disk: DiskMap)
    requires Indexed(s, cached)
  {
    forall n :: n in disk && n !in Pinned(s, cached) ==> View(s, cached, disk)[n] == disk[n]
  }

  /** The same with one block under modification by its holder. */
  ghost predicate CoherenceBut(s: Slots, cached: map<nat, Buf>, disk: DiskMap, m: nat)
    requires Indexed(s, cached)
  {
    forall n :: n in disk && n !in Pinned(s, cached) && n != m ==> View(s, cached, disk)[n] == disk[n]
  }

  lemma EmptyPool(s: Slots, disk: DiskMap)
    requires forall b :: b in s ==> s[b] == UNUSED_SLOT
    ensures Indexed(s, map[]) && View(s, map[], disk) == disk && Coherence(s, map[], disk) && Pinned(s, map[]) == {} && Held(s) == {}
  {
  }

  lemma EvictKeeps(s: Slots, cached: map<nat, Buf>, disk: DiskMap, b: Buf)
    requires Indexed(s, cached) && b in s && s[b].Available()
    ensures var s' := s[b := s[b].(dev := 0, valid := false)];
            var cached' := if s[b].dev == 0 then cached else cached - {s[b].blockno};
            && Indexed(s', cached')
            && Pinned(s', cached') == Pinned(s, cached) && Held(s') == Held(s)
            && View(s', cached', disk) ==
               if s[b].dev != 0 && s[b].blockno in disk then View(s, cached, disk)[s[b].blockno := disk[s[b].blockno]]
               else View(s, cached, disk)
  {
  }

  lemma AssignKeeps(s: Slots, cached: map<nat, Buf>, disk: DiskMap, b: Buf, n: nat)
    requires Indexed(s, cached) && b in s && s[b].dev == 0 && n !in cached
    ensures var s' := s[b := s[b].(dev := ROOTDEV, blockno := n, refcnt := 1)];
            var cached' := cached[n := b];
            && Indexed(s', cached')
            && Pinned(s', cached') == Pinned(s, cached) && Held(s') == Held(s) + {b}
            && View(s', cached', disk) == View(s, cached, disk)
  {
  }

  /** The index after buffer b has been given to block n. */
  ghost function Reassigned(s: Slots, cached: map<nat, Buf>, b: Buf, n: nat): (r: map<nat, Buf>)
    requires b in s
    ensures n in r && r[n] == b
  {
    (if s[b].dev == 0 then cached else cached - {s[b].blockno})[n := b]
  }

  /** bget's recycling step as the other callers see it: the only knowledge that can be
      lost is what the victim held and the disk does not. */
  lemma RecycleKeeps(s: Slots, cached: map<nat, Buf>, disk: DiskMap, b: Buf, n: nat)
    requires Indexed(s, cached) && cached.Keys <= disk.Keys && b in s && s[b].Available() && n !in cached && n in disk
    ensures var s' := s[b := Slot(ROOTDEV, n, false, false, 1, s[b].data)];
            var cached' := Reassigned(s, cached, b, n);
            && Indexed(s', cached') && cached'.Keys <= disk.Keys
            && (forall m :: m in cached && cached[m] != b ==> m in cached' && cached'[m] == cached[m])
            && Pinned(s', cached') == Pinned(s, cached) && Held(s') == Held(s) + {b}
            && View(s', cached', disk) ==
               (if s[b].dev != 0 then View(s, cached, disk)[s[b].blockno := disk[s[b].blockno]] else View(s, cached, disk))
            && b !in Held(s) && (s[b].dev != 0 ==> s[b].blockno !in Pinned(s, cached))
  {
    EvictKeeps(s, cached, disk, b);
    var s1 := s[b := s[b].(dev := 0, valid := false)];
    var cached1 := if s[b].dev == 0 then cached else cached - {s[b].blockno};
    AssignKeeps(s1, cached1, disk, b, n);
    assert s1[b := s1[b].(dev := ROOTDEV, blockno := n, refcnt := 1)] == s[b := Slot(ROOTDEV, n, false, false, 1, s[b].data)];
  }

  /** Nothing is lost when every unpinned change is on the disk. */
  lemma RecycleCoherence(s: Slots, cached: map<nat, Buf>, disk: DiskMap, b: Buf, n: nat)
    requires Indexed(s, cached) && cached.Keys <= disk.Keys && b in s && s[b].Available() && n !in cached && n in disk
    requires Coherence(s, cached, disk)
    ensures var s' := s[b := Slot(ROOTDEV, n, false, false, 1, s[b].data)];
            var cached' := Reassigned(s, cached, b, n);
            Indexed(s', cached') && Coherence(s', cached', disk) && View(s', cached', disk) == View(s, cached, disk)
  {
    assert s[b].dev != 0 ==> s[b].blockno in cached;
    hide Indexed, View, Pinned, Held, Reassigned;
    RecycleKeeps(s, cached, disk, b, n);
  }

  lemma UpdateIndexed(s: Slots, cached: map<nat, Buf>, b: Buf, t: Slot)
    requires Indexed(s, cached) && b in s && s[b].dev != 0
    requires t.dev == s[b].dev && t.blockno == s[b].blockno && (t.dirty ==> t.valid)
    ensures Indexed(s[b := t], cached) && t.blockno in cached && cached[t.blockno] == b
    ensures forall n :: n in cached && n != t.blockno ==> cached[n] != b
    ensures s[b].dirty <==> t.blockno in Pinned(s, cached)
  {
  }

  lemma UpdatePinned(s: Slots, cached: map<nat, Buf>, b: Buf, t: Slot)
    requires Indexed(s, cached) && b in s && Indexed(s[b := t], cached) && t.blockno in cached && cached[t.blockno] == b
    requires forall n :: n in cached && n != t.blockno ==> cached[n] != b
    ensures Pinned(s[b := t], cached) == if t.dirty then Pinned(s, cached) + {t.blockno} else Pinned(s, cached) - {t.blockno}
  {
    hide Indexed;
  }

  lemma UpdateView(s: Slots, cached: map<nat, Buf>, disk: DiskMap, b: Buf, t: Slot)
    requires Indexed(s, cached) && b in s && Indexed(s[b := t], cached) && t.blockno in cached && cached[t.blockno] == b
    requires forall n :: n in cached && n != t.blockno ==> cached[n] != b
    ensures t.blockno in disk ==>
              View(s[b := t], cached, disk) == View(s, cached, disk)[t.blockno := if t.valid then t.data else disk[t.blockno]]
    ensures t.valid == s[b].valid && t.data == s[b].data ==> View(s[b := t], cached, disk) == View(s, cached, disk)
  {
    hide Indexed;
  }

  /** Any change of a cached buffer that keeps its identity. */
  lemma UpdateKeeps(s: Slots, cached: map<nat, Buf>, disk: DiskMap, b: Buf, t: Slot)
    requires Indexed(s, cached) && b in s && s[b].dev != 0
    requires t.dev == s[b].dev && t.blockno == s[b].blockno && (t.dirty ==> t.valid)
    ensures var s' := s[b := t];
            && Indexed(s', cached) && t.blockno in cached
            && Pinned(s', cached) == (if t.dirty then Pinned(s, cached) + {t.blockno} else Pinned(s, cached) - {t.blockno})
            && Held(s') == (if t.refcnt > 0 then Held(s) + {b} else Held(s) - {b})
            && (t.blockno in disk ==>
                  View(s', cached, disk) == View(s, cached, disk)[t.blockno := if t.valid then t.data else disk[t.blockno]])
            && (t.dirty == s[b].dirty ==> Pinned(s', cached) == Pinned(s, cached))
            && (t.valid == s[b].valid && t.data == s[b].data ==> View(s', cached, disk) == View(s, cached, disk))
  {
    hide Indexed, Pinned, View;
    UpdateIndexed(s, cached, b, t);
    UpdatePinned(s, cached, b, t);
    UpdateView(s, cached, disk, b, t);
  }

  lemma UpdateCoherence(s: Slots, cached: map<nat, Buf>, disk: DiskMap, b: Buf, t: Slot)
    requires Indexed(s, cached) && Indexed(s[b := t], cached) && Coherence(s, cached, disk)
    requires View(s[b := t], cached, disk) == View(s, cached, disk) && Pinned(s[b := t], cached) == Pinned(s, cached)
    ensures Coherence(s[b := t], cached, disk)
  {
  }

  lemma ModifyCoherence(s: Slots, cached: map<nat, Buf>, disk: DiskMap, b: Buf, data: Block)
    requires Indexed(s, cached) && b in s && s[b].dev != 0 && s[b].valid && Coherence(s, cached, disk)
    ensures var s' := s[b := s[b].(data := data)]; Indexed(s', cached) && CoherenceBut(s', cached, disk, s[b].blockno)
  {
  }

  lemma PinCoherence(s: Slots, cached: map<nat, Buf>, disk: DiskMap, b: Buf)
    requires Indexed(s, cached) && b in s && s[b].dev != 0 && s[b].valid && CoherenceBut(s, cached, disk, s[b].blockno)
    ensures var s' := s[b := s[b].(dirty := true)]; Indexed(s', cached) && Coherence(s', cached, disk)
  {
  }

  lemma WriteCoherence(s: Slots, cached: map<nat, Buf>, disk: DiskMap, b: Buf)
    requires Indexed(s, cached) && b in s && s[b].dev != 0 && s[b].valid && CoherenceBut(s, cached, disk, s[b].blockno)
    requires s[b].blockno in disk
    ensures var s' := s[b := s[b].(dirty := false)];
            Indexed(s', cached) && Coherence(s', cached, disk[s[b].blockno := s[b].data])
  {
  }

  /** A disk write below a cached block is invisible. */
  lemma WriteBehind(s: Slots, cached: map<nat, Buf>, disk: DiskMap, n: nat, data: Block)
    requires Indexed(s, cached) && n in cached && s[cached[n]].valid && n in disk
    ensures View(s, cached, disk[n := data]) == View(s, cached, disk)
  {
  }

  lemma SubsetSize<T>(a: set<T>, b: set<T>)
    requires a <= b
    ensures |a| <= |b|
  {
    assert b == a + (b - a);
  }

  lemma {:induction false} ImageSize<T>(m: map<nat, T>, keys: set<nat>)
    requires keys <= m.Keys
    ensures |set n | n in keys :: m[n]| <= |keys|
  {
    if keys != {} {
      var n :| n in keys;
      ImageSize(m, keys - {n});
      assert (set k | k in keys :: m[k]) == (set k | k in keys - {n} :: m[k]) + {m[n]};
    }
  }

  lemma {:induction false} DistinctSize<T>(s: seq<T>)
    requires forall i, j :: 0 <= i < j < |s| ==> s[i] != s[j]
    ensures |set x | x in s| == |s|
  {
    if s != [] {
      var t := s[..|s| - 1];
      DistinctSize(t);
      assert (set x | x in s) == (set x | x in t) + {s[|s| - 1]};
    }
  }

  ghost function Unused(s: Slots): set<Buf> {
    set b | b in s && s[b].Available()
  }

  /** The available ones among the buffers from place k of the list on. */
  ghost function UnusedFrom(order: seq<Buf>, s: Slots, k: nat): set<Buf> {
    set i | k <= i < |order| && order[i] in s && s[order[i]].Available() :: order[i]
  }

  lemma UnusedNext(order: seq<Buf>, s: Slots, k: nat)
    requires k < |order| && order[k] in s
    ensures UnusedFrom(order, s, k) == UnusedFrom(order, s, k + 1) + if s[order[k]].Available() then {order[k]} else {}
  {
    forall b | b in UnusedFrom(order, s, k) ensures b in UnusedFrom(order, s, k + 1) || (b == order[k] && s[b].Available()) {
      var i :| k <= i < |order| && order[i] in s && s[order[i]].Available() && order[i] == b;
    }
  }

  lemma UnusedStep(order: seq<Buf>, pool: set<Buf>, s: Slots, k: nat)
    requires Arranges(order, pool) && s.Keys == pool && k < |order| && forall i, j :: 0 <= i < j < |order| ==> order[i] != order[j]
    ensures order[k] in s
    ensures |UnusedFrom(order, s, k)| == |UnusedFrom(order, s, k + 1)| + if s[order[k]].Available() then 1 else 0
  {
    assert order[k] !in UnusedFrom(order, s, k + 1);
    UnusedNext(order, s, k);
  }

  lemma UnusedAll(order: seq<Buf>, pool: set<Buf>, s: Slots)
    requires Arranges(order, pool) && s.Keys == pool
    ensures UnusedFrom(order, s, 0) == Unused(s) && UnusedFrom(order, s, |order|) == {}
  {
    forall b | b in Unused(s) ensures b in UnusedFrom(order, s, 0) {
      var i :| 0 <= i < |order| && order[i] == b;
    }
  }

  /** Each buffer is in use, pinned or available. */
  lemma UnusedCount(s: Slots, cached: map<nat, Buf>)
    requires Indexed(s, cached)
    ensures |s.Keys| <= |Held(s)| + |Pinned(s, cached)| + |Unused(s)|
  {
    var dirty := set n | n in Pinned(s, cached) :: cached[n];
    ImageSize(cached, Pinned(s, cached));
    forall b | b in s.Keys ensures b in Held(s) + dirty + Unused(s) {
      if s[b].refcnt == 0 && s[b].dirty {
        assert s[b].blockno in Pinned(s, cached) && cached[s[b].blockno] == b;
      }
    }
    SubsetSize(s.Keys, Held(s) + dirty + Unused(s));
  }

  /* ---------- The list ---------- */

  ghost predicate Arranges(o: seq<Buf>, pool: set<Buf>) {
    && |o| == NBUF
    && (forall i :: 0 <= i < |o| ==> o[i] in pool)
    && (forall b :: b in pool ==> b in o)
  }

  /** The list is sorted by release time, the most recent first. */
  ghost predicate ByRelease(o: seq<Buf>, stamp: map<Buf, nat>, clock: nat) {
    && (forall i :: 0 <= i < |o| ==> o[i] in stamp && stamp[o[i]] <= clock)
    && (forall i, j :: 0 <= i < j < |o| ==> stamp[o[i]] >= stamp[o[j]])
  }

  /** The k-th buffer moved to the front. */
  ghost function ToFront(o: seq<Buf>, k: nat): (r: seq<Buf>)
    requires k < |o|
    ensures |r| == |o|
  {
    [o[k]] + (o[..k] + o[k + 1..])
  }

  lemma ToFrontArranges(o: seq<Buf>, pool: set<Buf>, k: nat)
    requires Arranges(o, pool) && k < NBUF
    ensures Arranges(ToFront(o, k), pool)
  {
    var r := ToFront(o, k);
    forall b | b in pool ensures b in r {
      var i :| 0 <= i < NBUF && o[i] == b;
      assert r[if i < k then i + 1 else if i == k then 0 else i] == b;
    }
  }

  lemma ToFrontByRelease(o: seq<Buf>, stamp: map<Buf, nat>, clock: nat, k: nat)
    requires ByRelease(o, stamp, clock) && k < |o|
    requires forall i, j :: 0 <= i < j < |o| ==> o[i] != o[j]
    ensures ByRelease(ToFront(o, k), stamp[o[k] := clock + 1], clock + 1)
  {
    var r := ToFront(o, k);
    assert forall i :: 0 < i < |r| ==> r[i] == o[if i <= k then i - 1 else i];
  }

  /** The zero-filled buffers of the pool. */
  method NewPool() returns (pool: seq<Buf>)
    ensures |pool| == NBUF
    ensures forall i, j :: 0 <= i < j < NBUF ==> pool[i] != pool[j]
    ensures forall i :: 0 <= i < |pool| ==> fresh(pool[i]) && pool[i].Get() == UNUSED_SLOT
  {
    pool := [];
    while |pool| < NBUF
      invariant |pool| <= NBUF
      invariant forall i, j :: 0 <= i < j < |pool| ==> pool[i] != pool[j]
      invariant forall i :: 0 <= i < |pool| ==> fresh(pool[i]) && pool[i].Get() == UNUSED_SLOT
    {
      var b := new Buf();
      pool := pool + [b];
    }
  }

  class Cache {
    const disk: Disk
    const head: Buf
    const bufs: seq<Buf>                // bcache.buf
    ghost const pool: set<Buf>          // its elements
    ghost var order: seq<Buf>           // the list, from head.next round to head.prev
    ghost var now: Slots                // what each buffer holds
    ghost var cached: map<nat, Buf>     // where each cached block is
    ghost var clock: nat                // how many times a buffer became unused
    ghost var stamp: map<Buf, nat>      // when each buffer last became unused

    /** Following next from head visits o and comes back to head, and prev is the way back. */
    ghost predicate Linked(o: seq<Buf>)
      reads {head}`next, {head}`prev, o`next, o`prev
    {
      && head !in o
      && (forall i, j :: 0 <= i < j < |o| ==> o[i] != o[j])
      && head.next == (if |o| == 0 then head else o[0])
      && head.prev == (if |o| == 0 then head else o[|o| - 1])
      && (|o| > 0 ==> o[0].prev == head && o[|o| - 1].next == head)
      && (forall i {:trigger o[i].next} :: 0 <= i < |o| - 1 ==> o[i].next == o[i + 1])
      && (forall i {:trigger o[i].prev} :: 1 <= i < |o| ==> o[i].prev == o[i - 1])
    }

    /** order is a cyclic arrangement of exactly the buffers of the pool around head. */
    ghost predicate Ring()
      reads this`order, {head}`next, {head}`prev, order`next, order`prev
    {
      head !in pool && Arranges(order, pool) && Linked(order)
    }

    ghost predicate Recency()
      reads this`order, this`stamp, this`clock
    {
      ByRelease(order, stamp, clock)
    }

    ghost predicate Mirrored()
      reads this`now, pool`valid, pool`dirty, pool`dev, pool`blockno, pool`refcnt, pool`data
    {
      now.Keys == pool && forall b :: b in pool ==> now[b] == b.Get()
    }

    ghost predicate Consistent()
      reads this`now, this`cached, disk
    {
      Indexed(now, cached) && cached.Keys <= disk.blocks.Keys
    }

    ghost predicate Valid()
      reads this, {head}`next, {head}`prev, order`next, order`prev, disk
      reads pool`valid, pool`dirty, pool`dev, pool`blockno, pool`refcnt, pool`data
    {
      Ring() && Recency() && Mirrored() && Consistent()
    }

    ghost function Contents(): DiskMap
      requires Consistent()
      reads this`now, this`cached, disk
    {
      View(now, cached, disk.blocks)
    }

    ghost function Dirty(): set<nat>
      requires Consistent()
      reads this`now, this`cached, disk
    {
      Pinned(now, cached)
    }

    ghost function InUse(): set<Buf>
      reads this`now
    {
      Held(now)
    }

    ghost predicate Coherent()
      requires Consistent()
      reads this`now, this`cached, disk
    {
      Coherence(now, cached, disk.blocks)
    }

    ghost predicate CoherentBut(m: nat)
      requires Consistent()
      reads this`now, this`cached, disk
    {
      CoherenceBut(now, cached, disk.blocks, m)
    }

    /** b is a reference, as bread returns it, to the buffer of block n. */
    ghost predicate Holds(b: Buf, n: nat)
      reads this`cached, b`dev, b`blockno, b`valid, b`refcnt
    {
      b in pool && b.dev == ROOTDEV && b.blockno == n && b.valid && b.refcnt > 0 && n in cached && cached[n] == b
    }

    /** Insert b between head and its successor. */
    method PushFront(b: Buf, ghost o: seq<Buf>)
      requires Linked(o) && b !in o && b != head
      modifies {head, b}`next, {head, b}`prev, o`next, o`prev
      ensures Linked([b] + o)
    {
      b.next := head.next;
      b.prev := head;
      head.next.prev := b;
      head.next := b;
    }

    /** Take b, the k-th buffer, off the list. */
    method Unlink(b: Buf, ghost o: seq<Buf>, ghost k: nat)
      requires Linked(o) && k < |o| && o[k] == b
      modifies {head}`next, {head}`prev, o`next, o`prev
      ensures Linked(o[..k] + o[k + 1..])
    {
      b.next.prev := b.prev;
      b.prev.next := b.next;
    }

    /** The linking loop of binit. */
    method LinkPool()
      requires |bufs| == NBUF && head !in pool && pool == (set b | b in bufs)
      requires forall i, j :: 0 <= i < j < NBUF ==> bufs[i] != bufs[j]
      modifies this`order, this`stamp, {head}`next, {head}`prev, bufs`next, bufs`prev
      ensures Ring() && Recency()
    {
      head.prev := head;
      head.next := head;
      order := [];
      var k := 0;
      while k < NBUF
        invariant 0 <= k <= NBUF && |order| == k
        invariant forall i :: 0 <= i < k ==> order[i] == bufs[k - 1 - i]
        invariant Linked(order)
      {
        PushFront(bufs[k], order);
        order := [bufs[k]] + order;
        k := k + 1;
      }
      forall b | b in pool ensures b in order {
        var i :| 0 <= i < NBUF && bufs[i] == b;
        assert order[NBUF - 1 - i] == b;
      }
      stamp := map b | b in order :: 0;
    }

    /** binit */
    constructor (disk: Disk)
      ensures Valid() && Coherent() && this.disk == disk
      ensures Contents() == disk.blocks && Dirty() == {} && InUse() == {}
      ensures fresh(head) && fresh(pool) && |bufs| == 30
    {
      hide Linked, Ring, Recency, Mirrored, Indexed, View, Pinned, Held, Coherence;
      this.disk := disk;
      head := new Buf();
      var buf := NewPool();
      bufs := buf;
      pool := set b | b in buf;
      cached, clock, now := map[], 0, map[];
      new;
      LinkPool();
      HoldNothing();
    }

    /** The zero-filled pool as an abstract state. */
    ghost method HoldNothing()
      requires cached == map[] && forall b :: b in pool ==> b.Get() == UNUSED_SLOT
      modifies this`now
      ensures Mirrored() && Consistent() && Coherent()
      ensures Contents() == disk.blocks && Dirty() == {} && InUse() == {}
    {
      hide Indexed, View, Pinned, Held, Coherence;
      now := map b | b in pool :: UNUSED_SLOT;
      EmptyPool(now, disk.blocks);
    }

    /** The first loop of bget: is the block already cached? */
    method Lookup(n: nat) returns (b: Buf?)
      requires Ring() && Mirrored() && Consistent()
      ensures b == null <==> n !in cached
      ensures b != null ==> b == cached[n] && b in pool && b.dev == ROOTDEV && b.blockno == n
      ensures b != null ==> (b.dirty ==> b.valid) && (b in InUse() <==> b.refcnt > 0)
    {
      assert n in cached ==> cached[n] in order && now[cached[n]] == cached[n].Get();
      var p := head.next;
      ghost var k := 0;
      while p != head
        invariant 0 <= k <= NBUF && p == (if k < NBUF then order[k] else head)
        invariant forall i :: 0 <= i < k ==> !(order[i].dev == ROOTDEV && order[i].blockno == n)
        decreases NBUF - k
      {
        if p.dev == ROOTDEV && p.blockno == n {
          assert now[p] == p.Get();
          return p;
        }
        p, k := p.next, k + 1;
      }
      b := null;
    }

    /** The second loop of bget: the unused buffer that was released the longest ago. */
    method Victim() returns (b: Buf?)
      requires Ring() && Recency() && Mirrored()
      ensures b == null ==> forall c :: c in pool ==> !c.Get().Available() && (c.refcnt != 0 || c.dirty)
      ensures b != null ==> b in pool && b.Get().Available() && b.refcnt == 0 && !b.dirty
      ensures b != null ==> forall c :: c in pool && c.Get().Available() ==> stamp[b] <= stamp[c]
    {
      var p := head.prev;
      ghost var k := NBUF;
      UnusedAll(order, pool, now);
      while p != head
        invariant 0 <= k <= NBUF && p == (if k > 0 then order[k - 1] else head)
        invariant forall i :: k <= i < NBUF ==> !order[i].Get().Available()
        decreases k
      {
        if p.refcnt == 0 && !p.dirty {
          forall c | c in pool && c.Get().Available() ensures stamp[p] <= stamp[c] {
            var i :| 0 <= i < NBUF && order[i] == c;
          }
          return p;
        }
        p, k := p.prev, k - 1;
      }
      b := null;
    }

    lemma Mirror(b: Buf)
      requires Mirrored() && b in pool
      ensures b in now && now[b] == b.Get()
    {
    }

    /** What a cached buffer contributes to the abstract state. */
    lemma Shows(b: Buf)
      requires Mirrored() && Consistent() && b in pool && b.dev != 0
      ensures b.dev == ROOTDEV && b.blockno in cached && cached[b.blockno] == b && b.blockno in disk.blocks
      ensures Contents()[b.blockno] == if b.valid then b.data else disk.blocks[b.blockno]
      ensures b.blockno in Dirty() <==> b.dirty
      ensures b in InUse() <==> b.refcnt > 0
      ensures b.dirty ==> b.valid
    {
      Mirror(b);
    }

    lemma CachedAt(n: nat)
      requires Mirrored() && Consistent() && n in cached
      ensures cached[n] in pool && cached[n].dev == ROOTDEV && cached[n].blockno == n
    {
      assert now[cached[n]] == cached[n].Get();
    }

    ghost function Free(): set<Buf>
      reads this`now
    {
      Unused(now)
    }

    lemma FreeCount()
      requires Ring() && Mirrored() && Consistent()
      ensures NBUF <= |InUse()| + |Dirty()| + |Free()|
    {
      assert pool == set b | b in order;
      DistinctSize(order);
      UnusedCount(now, cached);
    }

    lemma NoneFree()
      requires Mirrored()
      ensures Free() == {} <==> forall c :: c in pool ==> !c.Get().Available()
    {
      if b :| b in Free() { assert b in pool && b.Get().Available(); }
      if b :| b in pool && b.Get().Available() { assert b in Free(); }
    }

    /** Fewer than NBUF buffers pinned or in use leave one to recycle. */
    lemma Spare()
      requires Ring() && Mirrored() && Consistent() && |InUse()| + |Dirty()| < NBUF
      ensures exists b :: b in pool && b.Get().Available()
    {
      FreeCount();
      var b :| b in Free();
      Mirror(b);
    }

    lemma SomeFree()
      requires Ring() && Mirrored() && Consistent()
      ensures Free() == {} <==> forall c :: c in pool ==> !c.Get().Available()
      ensures |InUse()| + |Dirty()| < 30 ==> Free() != {}
    {
      NoneFree();
      if |InUse()| + |Dirty()| < NBUF { Spare(); }
    }

    /** Write the fields of b, and keep the ghost index in step. */
    method Update(b: Buf, t: Slot, ghost index: map<nat, Buf>)
      requires Mirrored() && b in pool
      modifies this`now, this`cached, b`valid, b`dirty, b`dev, b`blockno, b`refcnt, b`data
      ensures Mirrored() && now == old(now)[b := t] && b.Get() == t && cached == index
    {
      b.Set(t);
      now, cached := now[b := t], index;
    }

    /** The body of that loop: give an unused buffer to block n. */
    method Recycle(b: Buf, n: nat)
      requires Valid() && b in pool && b.Get().Available() && n !in cached && n in disk.blocks
      modifies this`now, this`cached, b`dev, b`blockno, b`valid, b`dirty, b`refcnt, b`data
      ensures Valid() && n in cached && cached[n] == b
      ensures forall m :: m in old(cached) && old(cached)[m] != b ==> m in cached && cached[m] == old(cached)[m]
      ensures !b.valid && b.refcnt == 1 && b !in old(InUse())
      ensures now == old(now)[b := Slot(ROOTDEV, n, false, false, 1, old(b.data))]
      ensures Dirty() == old(Dirty()) && InUse() == old(InUse()) + {b} && old(InUse()) == InUse() - {b}
      // only what the victim alone knew is lost
      ensures old(Coherent()) ==> Coherent() && Contents() == old(Contents())
      ensures Contents() == if old(b.dev) != 0 then old(Contents())[old(b.blockno) := disk.blocks[old(b.blockno)]] else old(Contents())
    {
      hide Indexed, Reassigned, View, Pinned, Held, Coherence, Ring, Recency, Mirrored;
      Mirror(b);
      RecycleKeeps(now, cached, disk.blocks, b, n);
      if Coherent() {
        RecycleCoherence(now, cached, disk.blocks, b, n);
      }
      Update(b, Slot(ROOTDEV, n, false, false, 1, b.data), Reassigned(now, cached, b, n));
    }

    /** Every change of a cached buffer that keeps its identity: reference counts, flags, data. */
    method Put(b: Buf, t: Slot)
      requires Valid() && b in pool && b.dev != 0
      requires t.dev == b.dev && t.blockno == b.blockno && (t.dirty ==> t.valid)
      modifies this`now, this`cached, b`valid, b`dirty, b`dev, b`blockno, b`refcnt, b`data
      ensures Valid() && b.Get() == t && now == old(now)[b := t] && cached == old(cached)
      ensures Dirty() == if t.dirty then old(Dirty()) + {t.blockno} else old(Dirty()) - {t.blockno}
      ensures InUse() == if t.refcnt > 0 then old(InUse()) + {b} else old(InUse()) - {b}
      ensures t.dirty == old(b.dirty) ==> Dirty() == old(Dirty())
      ensures t.valid == old(b.valid) && t.data == old(b.data) ==> Contents() == old(Contents())
      ensures Contents() == old(Contents()) && t.dirty == old(b.dirty) && old(Coherent()) ==> Coherent()
      ensures b.blockno in disk.blocks
      ensures Contents() == old(Contents())[t.blockno := if t.valid then t.data else disk.blocks[t.blockno]]
    {
      hide Indexed, View, Pinned, Held, Coherence, Ring, Recency, Mirrored;
      Mirror(b);
      UpdateKeeps(now, cached, disk.blocks, b, t);
      if Coherent() && View(now[b := t], cached, disk.blocks) == Contents() && t.dirty == b.dirty {
        UpdateCoherence(now, cached, disk.blocks, b, t);
      }
      Update(b, t, cached);
    }

    /** One more reference to a cached buffer. */
    method Share(b: Buf)
      requires Valid() && b in pool && b.dev != 0 && (b.dirty ==> b.valid) && (b in InUse() <==> b.refcnt > 0)
      modifies this`now, this`cached, b`valid, b`dirty, b`dev, b`blockno, b`refcnt, b`data
      ensures Valid() && b.refcnt == old(b.refcnt) + 1 && cached == old(cached)
      ensures now == old(now)[b := b.Get()]
      ensures InUse() == old(InUse()) + {b} && Dirty() == old(Dirty())
      ensures old(Coherent()) ==> Coherent() && Contents() == old(Contents())
    {
      hide Indexed, View, Pinned, Held, Coherence, Ring, Recency;
      Put(b, b.Get().(refcnt := b.refcnt + 1));
    }

    /** bget: a counted reference to the buffer of block n, recycling one if need be;
        null stands for the panic. */
    method Bget(n: nat) returns (b: Buf?)
      requires Valid() && n in disk.blocks
      modifies this`now, this`cached, pool`valid, pool`dirty, pool`dev, pool`blockno, pool`refcnt, pool`data
      ensures Valid()
      ensures b == null <==> n !in old(cached) && forall c :: c in pool ==> !old(c.Get()).Available()
      ensures b == null ==> now == old(now) && cached == old(cached)
      ensures b != null ==> n in cached && cached[n] == b
      ensures b != null ==> b.refcnt == (if b in old(InUse()) then old(b.refcnt) else 0) + 1
      ensures b != null ==> old(InUse()) == if b.refcnt == 1 then InUse() - {b} else InUse()
      ensures b != null ==> InUse() == old(InUse()) + {b} && Dirty() == old(Dirty())
      ensures b != null ==> now == old(now)[b := b.Get()]
      ensures old(Coherent()) ==> Coherent() && Contents() == old(Contents())
      // nobody else's buffer is touched
      ensures forall c :: c in pool && old(Holds(c, c.blockno)) && old(c.blockno) != n ==>
                Holds(c, c.blockno) && c.Get() == old(c.Get())
      // the least recently released buffer that is neither in use nor dirty is the one recycled
      ensures b != null && n !in old(cached) ==>
        && !b.valid && old(b.Get()).Available()
        && forall c :: c in pool && old(c.Get()).Available() ==> stamp[b] <= stamp[c]
    {
      hide Indexed, View, Pinned, Held, Coherence, Ring, Recency;
      b := Lookup(n);
      if b != null {
        Share(b);
        return;
      }
      b := Victim();
      if b != null {
        Recycle(b, n);
      }
    }

    /** iderw for a buffer that is not valid: read it from the disk. */
    method Fill(b: Buf)
      requires Valid() && b in pool && b.dev != 0
      modifies this`now, this`cached, b`valid, b`dirty, b`dev, b`blockno, b`refcnt, b`data
      ensures Valid() && cached == old(cached) && Contents() == old(Contents())
      ensures b.valid && b.dev == ROOTDEV && b.blockno == old(b.blockno) && b.refcnt == old(b.refcnt)
      ensures b.blockno in Contents() && b.data == Contents()[b.blockno]
      ensures now == old(now)[b := b.Get()]
      ensures InUse() == old(InUse()) && Dirty() == old(Dirty())
      ensures old(Coherent()) ==> Coherent()
    {
      hide Indexed, View, Pinned, Held, Coherence, Ring, Recency, Mirrored;
      Shows(b);
      Mirror(b);
      if !b.valid {
        Put(b, b.Get().(valid := true, data := disk.blocks[b.blockno]));
        Shows(b);
      }
    }

    /** bread: the contents of block n, in a buffer the caller now holds. */
    method Bread(n: nat) returns (b: Buf?)
      requires Valid() && n in disk.blocks
      modifies this`now, this`cached, pool`valid, pool`dirty, pool`dev, pool`blockno, pool`refcnt, pool`data
      ensures Valid()
      ensures b == null <==> n !in old(cached) && old(Free()) == {}
      ensures |old(InUse())| + |old(Dirty())| < 30 ==> b != null
      ensures b == null ==> now == old(now) && cached == old(cached)
      ensures b != null ==> Holds(b, n) && b.data == Contents()[n]
      ensures b != null ==> b.refcnt == (if b in old(InUse()) then old(b.refcnt) else 0) + 1
      ensures b != null ==> old(InUse()) == if b.refcnt == 1 then InUse() - {b} else InUse()
      ensures b != null ==> InUse() == old(InUse()) + {b} && Dirty() == old(Dirty())
      ensures b != null ==> now == old(now)[b := b.Get()]
      ensures forall c :: c in pool && old(Holds(c, c.blockno)) && old(c.blockno) != n ==>
                Holds(c, c.blockno) && c.Get() == old(c.Get())
      ensures old(Coherent()) ==> Coherent() && Contents() == old(Contents())
    {
      hide Indexed, View, Pinned, Held, Coherence, Ring, Recency, Mirrored, Free;
      SomeFree();
      b := Bget(n);
      if b != null {
        CachedAt(n);
        Fill(b);
      }
    }

    /** The holder stores into the data of the buffer. */
    method Modify(b: Buf, data: Block)
      requires Valid() && Holds(b, b.blockno)
      modifies this`now, this`cached, b`valid, b`dirty, b`dev, b`blockno, b`refcnt, b`data
      ensures Valid() && cached == old(cached) && b.Get() == old(b.Get()).(data := data)
      ensures b.blockno in old(Contents()) && Contents() == old(Contents())[b.blockno := data]
      ensures now == old(now)[b := b.Get()]
      ensures InUse() == old(InUse()) && Dirty() == old(Dirty())
      ensures old(Coherent()) ==> CoherentBut(b.blockno)
    {
      hide Indexed, View, Pinned, Held, Coherence, CoherenceBut, Ring, Recency, Mirrored;
      Shows(b);
      Mirror(b);
      if Coherent() {
        ModifyCoherence(now, cached, disk.blocks, b, data);
      }
      Put(b, b.Get().(data := data));
    }

    /** log_write sets the dirty flag, which keeps the buffer in the cache. */
    method Pin(b: Buf)
      requires Valid() && Holds(b, b.blockno)
      modifies this`now, this`cached, b`valid, b`dirty, b`dev, b`blockno, b`refcnt, b`data
      ensures Valid() && cached == old(cached) && b.Get() == old(b.Get()).(dirty := true)
      ensures Contents() == old(Contents()) && now == old(now)[b := b.Get()]
      ensures InUse() == old(InUse()) && Dirty() == old(Dirty()) + {b.blockno}
      ensures old(CoherentBut(b.blockno)) ==> Coherent()
    {
      hide Indexed, View, Pinned, Held, Coherence, CoherenceBut, Ring, Recency, Mirrored;
      Shows(b);
      Mirror(b);
      if CoherentBut(b.blockno) {
        PinCoherence(now, cached, disk.blocks, b);
      }
      Put(b, b.Get().(dirty := true));
    }

    /** bwrite: one write to the disk, after which the buffer is clean. */
    method Bwrite(b: Buf)
      requires Valid() && Holds(b, b.blockno)
      modifies this`now, this`cached, b`valid, b`dirty, b`dev, b`blockno, b`refcnt, b`data, disk
      ensures Valid() && cached == old(cached) && b.Get() == old(b.Get()).(dirty := false)
      ensures disk.blocks == old(disk.blocks)[b.blockno := b.data]
      ensures disk.writes == old(disk.writes) + [DiskWrite(b.blockno, b.data)]
      ensures Contents() == old(Contents()) && now == old(now)[b := b.Get()]
      ensures InUse() == old(InUse()) && Dirty() == old(Dirty()) - {b.blockno}
      ensures old(CoherentBut(b.blockno)) ==> Coherent()
    {
      hide Indexed, View, Pinned, Held, Coherence, CoherenceBut, Ring, Recency, Mirrored;
      Shows(b);
      Mirror(b);
      if CoherentBut(b.blockno) {
        WriteCoherence(now, cached, disk.blocks, b);
      }
      ghost var s0 := now;
      Put(b, b.Get().(dirty := true));
      WriteBehind(now, cached, disk.blocks, b.blockno, b.data);
      disk.Write(b.blockno, b.data);
      Put(b, b.Get().(dirty := false));
      assert now == s0[b := s0[b].(dirty := false)];
    }

    lemma Position(b: Buf) returns (k: nat, rest: seq<Buf>)
      requires Linked(order) && Arranges(order, pool) && b in pool
      ensures k < |order| && |order| == NBUF && order[k] == b
      ensures rest == order[..k] + order[k + 1..] && ToFront(order, k) == [b] + rest
      ensures b !in rest && b != head
      ensures forall i :: 0 <= i < |order| ==> order[i] in pool
      ensures forall i :: 0 <= i < |rest| ==> rest[i] in pool
      ensures forall i, j :: 0 <= i < j < |order| ==> order[i] != order[j]
    {
      k :| 0 <= k < NBUF && order[k] == b;
      rest := order[..k] + order[k + 1..];
    }

    /** Fill a held buffer and write it to the disk at once. */
    method Store(b: Buf, data: Block)
      requires Valid() && Holds(b, b.blockno)
      modifies this`now, this`cached, b`valid, b`dirty, b`dev, b`blockno, b`refcnt, b`data, disk
      ensures Valid() && cached == old(cached) && b.Get() == old(b.Get()).(data := data, dirty := false)
      ensures disk.blocks == old(disk.blocks)[b.blockno := data]
      ensures disk.writes == old(disk.writes) + [DiskWrite(b.blockno, data)]
      ensures b.blockno in old(Contents()) && Contents() == old(Contents())[b.blockno := data]
      ensures InUse() == old(InUse()) && Dirty() == old(Dirty()) - {b.blockno}
      ensures old(Coherent()) ==> Coherent()
    {
      hide Indexed, View, Pinned, Held, Coherence, CoherenceBut, Ring, Recency, Mirrored;
      Modify(b, data);
      Bwrite(b);
    }

    /** The list surgery of brelse: b becomes the most recently used buffer. */
    method MoveToFront(b: Buf)
      requires Ring() && Recency() && b in pool
      modifies this`order, this`stamp, this`clock, {head}`next, {head}`prev, pool`next, pool`prev
      ensures Ring() && Recency()
      ensures exists k :: 0 <= k < |old(order)| && old(order)[k] == b && order == ToFront(old(order), k)
      ensures clock == old(clock) + 1 && stamp == old(stamp)[b := clock]
    {
      hide Linked, Arranges, ByRelease, ToFront;
      ghost var k, rest := Position(b);
      ToFrontArranges(order, pool, k);
      ToFrontByRelease(order, stamp, clock, k);
      Unlink(b, order, k);
      PushFront(b, rest);
      order := ToFront(order, k);
      clock := clock + 1;
      stamp := stamp[b := clock];
    }

    /** brelse */
    method Brelse(b: Buf)
      requires Valid() && Holds(b, b.blockno)
      modifies this, {head}`next, {head}`prev, pool`next, pool`prev
      modifies b`valid, b`dirty, b`dev, b`blockno, b`refcnt, b`data
      ensures Valid() && cached == old(cached) && disk.blocks == old(disk.blocks)
      ensures b.Get() == old(b.Get()).(refcnt := old(b.refcnt) - 1) && now == old(now)[b := b.Get()]
      ensures Contents() == old(Contents()) && Dirty() == old(Dirty())
      ensures InUse() == if b.refcnt == 0 then old(InUse()) - {b} else old(InUse())
      ensures old(Coherent()) ==> Coherent()
      ensures forall c :: c in pool && c != b && old(Holds(c, c.blockno)) ==> Holds(c, c.blockno) && c.Get() == old(c.Get())
      // the last release makes b the most recently used buffer; no other buffer moves
      ensures b.refcnt == 0 ==> exists k :: 0 <= k < |old(order)| && old(order)[k] == b && order == [b] + old(order)[..k] + old(order)[k + 1..]
      ensures b.refcnt == 0 ==> clock == old(clock) + 1 && stamp == old(stamp)[b := clock]
      ensures b.refcnt > 0 ==> order == old(order) && clock == old(clock) && stamp == old(stamp)
    {
      hide Indexed, View, Pinned, Held, Coherence, CoherenceBut, Ring, Recency, Mirrored;
      Shows(b);
      Put(b, b.Get().(refcnt := b.refcnt - 1));
      if b.refcnt == 0 {
        MoveToFront(b);
      }
    }

    /** The counting loop of isBufFull in log.c. */
    method CountFree() returns (count: nat)
      requires Valid()
      ensures count == |Free()| && forall b :: b in Free() <==> b in pool && b.refcnt == 0 && !b.dirty
    {
      hide Indexed, Recency;
      var p := head.prev;
      count := 0;
      ghost var k := NBUF;
      UnusedAll(order, pool, now);
      while p != head
        invariant 0 <= k <= NBUF && p == (if k > 0 then order[k - 1] else head)
        invariant count == |UnusedFrom(order, now, k)|
        decreases k
      {
        UnusedStep(order, pool, now, k - 1);
        assert now[p] == p.Get();
        if p.refcnt == 0 && !p.dirty {
          count := count + 1;
        }
        p, k := p.prev, k - 1;
      }
      UnusedAll(order, pool, now);
    }
  }
}
