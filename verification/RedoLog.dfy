/** The log's own procedures, on top of the buffer cache. */
module RedoLog {
  import opened Blocks
  import opened Bio
  import opened Commit
  import opened Runs

  const NLOG := LOGSIZE  // sb.nlog, the log.size that mkfs chooses

  /** Only the buffers in held are held, and every change is on the disk or in a buffer pinned for pins. */
  ghost predicate Settled(cache: Cache, pins: set<nat>, held: set<Buf>)
    reads cache, {cache.head}`next, {cache.head}`prev, cache.order`next, cache.order`prev, cache.disk
    reads cache.pool`valid, cache.pool`dirty, cache.pool`dev, cache.pool`blockno, cache.pool`refcnt, cache.pool`data
  {
    cache.Valid() && cache.Coherent() && cache.InUse() == held && cache.Dirty() == pins
  }

  lemma SettledMeans(cache: Cache, pins: set<nat>, held: set<Buf>)
    requires Settled(cache, pins, held)
    ensures cache.Consistent()
  {
  }

  ghost function Blocknos(lh: seq<Word>): (s: set<nat>) {
    set i | 0 <= i < |lh| :: lh[i] as nat
  }

  lemma {:induction false} BlocknosSize(lh: seq<Word>)
    ensures |Blocknos(lh)| <= |lh|
  {
    if lh != [] {
      var t := lh[..|lh| - 1];
      BlocknosSize(t);
      assert Blocknos(lh) == Blocknos(t) + {lh[|lh| - 1] as nat};
    }
  }

  /** Two references taken and given back leave the same buffers held. */
  lemma Returned(held: set<Buf>, h1: set<Buf>, h2: set<Buf>, s: Buf, d: Buf, a: bool, b: bool)
    requires s != d && h1 == held + {s} && held == (if a then h1 - {s} else h1)
    requires h2 == h1 + {d} && h1 == if b then h2 - {d} else h2
    ensures var h3 := if a then h2 - {s} else h2; (if b then h3 - {d} else h3) == held
  {
  }

  /** One round of write_log and of install_trans: block to becomes a copy of block from,
      on the disk too. */
  method CopyBlock(cache: Cache, from: nat, to: nat, ghost pins: set<nat>, ghost held: set<Buf>)
    requires Settled(cache, pins, held) && |held| + |pins| + 1 < NBUF
    requires from in cache.disk.blocks && to in cache.disk.blocks && from != to
    modifies cache, {cache.head}`next, {cache.head}`prev, cache.pool, cache.disk
    ensures Settled(cache, pins - {to}, held)
    ensures from in old(cache.Contents())
    ensures var x := old(cache.Contents())[from];
            && cache.disk.blocks == old(cache.disk.blocks)[to := x]
            && cache.disk.writes == old(cache.disk.writes) + [DiskWrite(to, x)]
            && cache.Contents() == old(cache.Contents())[to := x]
  {
    hide Indexed, View, Pinned, Held, Coherence, CoherenceBut;
    hide Cache.Ring, Cache.Recency, Cache.Mirrored, Cache.Free;
    var src := cache.Bread(from);
    assert cache.Holds(src, src.blockno) && src.data == old(cache.Contents())[from];
    ghost var h1 := cache.InUse();
    var dst := cache.Bread(to);
    assert src != dst && cache.Holds(src, src.blockno);
    Returned(held, h1, cache.InUse(), src, dst, src.refcnt == 1, dst.refcnt == 1);
    cache.Store(dst, src.data);
    assert cache.Holds(src, src.blockno);
    ReleaseBoth(cache, src, dst, held);
  }

  /** The two buffers are given back, and those held before are held. */
  method ReleaseBoth(cache: Cache, src: Buf, dst: Buf, ghost held: set<Buf>)
    requires cache.Valid() && cache.Coherent() && src != dst && cache.Holds(src, src.blockno) && cache.Holds(dst, dst.blockno)
    requires var h := if src.refcnt == 1 then cache.InUse() - {src} else cache.InUse();
             (if dst.refcnt == 1 then h - {dst} else h) == held
    modifies cache, {cache.head}`next, {cache.head}`prev, cache.pool
    ensures Settled(cache, old(cache.Dirty()), held) && cache.Contents() == old(cache.Contents())
  {
    hide Indexed, View, Pinned, Held, Coherence, CoherenceBut;
    hide Cache.Ring, Cache.Recency, Cache.Mirrored, Cache.Free;
    cache.Brelse(src);
    cache.Brelse(dst);
  }

  /** The loop of write_head over the bytes of the header block. */
  method HeadBytes(b: Block, lh: seq<Word>) returns (r: Block)
    requires |lh| <= LOGSIZE
    ensures r == PutHead(b, lh)
    // the count, the block numbers, and the words that were there
    ensures GetWord(r, 0) == |lh|
    ensures forall i :: 0 <= i < |lh| ==> GetWord(r, i + 1) == lh[i]
    ensures forall i :: |lh| < i < 128 ==> GetWord(r, i) == GetWord(b, i)
  {
    r := SetWord(b, 0, |lh|);
    var i := 0;
    assert lh[..0] == [];
    while i < |lh|
      invariant 0 <= i <= |lh|
      invariant r == PutEntries(SetWord(b, 0, |lh|), lh[..i])
    {
      r := SetWord(r, i + 1, lh[i]);
      assert lh[..i + 1][..i] == lh[..i];
      i := i + 1;
    }
    assert lh[..i] == lh;
    HeadExactly(b, lh);
  }

  method WriteHead(cache: Cache, start: nat, lh: seq<Word>, ghost pins: set<nat>, ghost held: set<Buf>)
    requires Settled(cache, pins, held) && |held| + |pins| < NBUF
    requires |lh| <= LOGSIZE && start in cache.disk.blocks && start !in pins
    modifies cache, {cache.head}`next, {cache.head}`prev, cache.pool, cache.disk
    ensures Settled(cache, pins, held)
    ensures start in old(cache.Contents())
    ensures var x := HeadWrite(start, old(cache.Contents())[start], lh);
            && cache.disk.blocks == old(cache.disk.blocks)[start := x.data]
            && cache.disk.writes == old(cache.disk.writes) + [x]
            && cache.Contents() == old(cache.Contents())[start := x.data]
  {
    hide Indexed, View, Pinned, Held, Coherence, CoherenceBut, PutHead;
    hide Cache.Ring, Cache.Recency, Cache.Mirrored, Cache.Free;
    var b := cache.Bread(start);
    var data := HeadBytes(b.data, lh);
    cache.Store(b, data);
    cache.Brelse(b);
  }

  method ReadHead(cache: Cache, start: nat) returns (lh: seq<Word>)
    requires Settled(cache, {}, {}) && start in cache.disk.blocks && GetWord(cache.Contents()[start], 0) <= LOGSIZE
    modifies cache, {cache.head}`next, {cache.head}`prev, cache.pool
    ensures Settled(cache, {}, {}) && cache.Contents() == old(cache.Contents()) && cache.disk.blocks == old(cache.disk.blocks)
    ensures lh == GetHead(cache.Contents()[start])
    ensures |lh| == GetWord(cache.Contents()[start], 0) && forall i :: 0 <= i < |lh| ==> lh[i] == GetWord(cache.Contents()[start], i + 1)
  {
    hide Indexed, View, Pinned, Held, Coherence, CoherenceBut, GetWord;
    hide Cache.Ring, Cache.Recency, Cache.Mirrored, Cache.Free;
    var b := cache.Bread(start);
    lh := [];
    while |lh| < GetWord(b.data, 0)
      invariant |lh| <= GetWord(b.data, 0)
      invariant forall i :: 0 <= i < |lh| ==> lh[i] == GetWord(b.data, i + 1)
    {
      lh := lh + [GetWord(b.data, |lh| + 1)];
    }
    cache.Brelse(b);
  }

  /** One round of write_log on the disk d and on the cached contents v. */
  lemma LogStep(start: nat, lh: seq<Word>, d: DiskMap, v: DiskMap, tail: nat)
    requires Loggable(start, lh, d) && v.Keys == d.Keys && tail < |lh|
    ensures var w, x := LogWrites(start, lh, v), DiskWrite(start + 1 + tail, v[lh[tail]]);
            && w[..tail + 1] == w[..tail] + [x]
            && (forall e: DiskMap {:trigger Apply(e, w[..tail])} :: Apply(e, w[..tail + 1]) == Apply(e, w[..tail])[x.blockno := x.data])
            && Apply(d, w[..tail]).Keys == d.Keys && Apply(v, w[..tail]).Keys == d.Keys
            && Apply(v, w[..tail])[lh[tail]] == v[lh[tail]]
            && x.blockno in d && x.blockno !in Blocknos(lh) && x.blockno != lh[tail]
  {
    hide Apply;
    var w, x := LogWrites(start, lh, v), DiskWrite(start + 1 + tail, v[lh[tail]]);
    LogEffect(start, lh, d, v, tail);
    LogEffect(start, lh, v, v, tail);
    assert InLog(start, x.blockno) && !InLog(start, lh[tail]);
    assert w[..tail + 1] == w[..tail] + [x];
    forall e: DiskMap ensures Apply(e, w[..tail + 1]) == Apply(e, w[..tail])[x.blockno := x.data] {
      ApplyOne(e, w[..tail], x);
    }
    forall n | n in Blocknos(lh) ensures n != x.blockno {
    }
  }

  /** write_log */
  method WriteLog(cache: Cache, start: nat, lh: seq<Word>, ghost held: set<Buf>)
    requires Settled(cache, Blocknos(lh), held) && Loggable(start, lh, cache.disk.blocks) && |held| + |lh| + 1 < NBUF
    modifies cache, {cache.head}`next, {cache.head}`prev, cache.pool, cache.disk
    ensures Settled(cache, Blocknos(lh), held)
    ensures var w := LogWrites(start, lh, old(cache.Contents()));
            && cache.disk.writes == old(cache.disk.writes) + w
            && cache.disk.blocks == Apply(old(cache.disk.blocks), w)
            && cache.Contents() == Apply(old(cache.Contents()), w)
  {
    hide Indexed, View, Pinned, Held, Coherence, CoherenceBut, Apply, LogWrites;
    hide Cache.Ring, Cache.Recency, Cache.Mirrored, Cache.Free;
    BlocknosSize(lh);
    ghost var d, v := cache.disk.blocks, cache.Contents();
    ghost var w := LogWrites(start, lh, v);
    ApplyNone(d);
    ApplyNone(v);
    var tail := 0;
    while tail < |lh|
      invariant 0 <= tail <= |lh| && Settled(cache, Blocknos(lh), held)
      invariant cache.disk.writes == old(cache.disk.writes) + w[..tail]
      invariant cache.disk.blocks == Apply(d, w[..tail]) && cache.Contents() == Apply(v, w[..tail])
    {
      LogStep(start, lh, d, v, tail);
      CopyBlock(cache, lh[tail], start + 1 + tail, Blocknos(lh), held);
      tail := tail + 1;
    }
    assert w[..tail] == w;
  }

  /** One round of install_trans on the disk d and on the cached contents v. */
  lemma InstallStep(start: nat, lh: seq<Word>, v: DiskMap, tail: nat, pins: set<nat>)
    requires Loggable(start, lh, v) && tail < |lh|
    ensures var w, x := InstallWrites(start, lh, v), DiskWrite(lh[tail], v[start + 1 + tail]);
            && w[..tail + 1] == w[..tail] + [x]
            && (forall e: DiskMap {:trigger Apply(e, w[..tail])} :: Apply(e, w[..tail + 1]) == Apply(e, w[..tail])[x.blockno := x.data])
            && (forall e: DiskMap {:trigger Apply(e, w[..tail])} :: e.Keys == v.Keys ==> Apply(e, w[..tail]).Keys == e.Keys)
            && start + 1 + tail in v && start + 1 + tail != lh[tail]
            && Apply(v, w[..tail])[start + 1 + tail] == v[start + 1 + tail]
            && pins - Blocknos(lh[..tail + 1]) == pins - Blocknos(lh[..tail]) - {lh[tail] as nat}
            && |pins - Blocknos(lh[..tail])| <= |pins|
  {
    hide Apply, Blocknos, InstallWrites;
    var w, x := InstallWrites(start, lh, v), DiskWrite(lh[tail], v[start + 1 + tail]);
    InstallEffect(start, lh, v, tail);
    InstallOne(start, lh, v, tail);
    assert InLog(start, start + 1 + tail);
    forall e: DiskMap ensures Apply(e, w[..tail + 1]) == Apply(e, w[..tail])[x.blockno := x.data] {
      ApplyOne(e, w[..tail], x);
    }
    forall e: DiskMap | e.Keys == v.Keys ensures Apply(e, w[..tail]).Keys == e.Keys {
      ApplyKeys(e, w[..tail]);
    }
    assert lh[..tail + 1] == lh[..tail] + [lh[tail]];
    BlocknosAppend(lh[..tail], lh[tail]);
    SubsetSize(pins - Blocknos(lh[..tail]), pins);
  }

  lemma InstallOne(start: nat, lh: seq<Word>, v: DiskMap, tail: nat)
    requires Loggable(start, lh, v) && tail < |lh|
    ensures InLog(start, start + 1 + tail) && start + 1 + tail in v
    ensures var w := InstallWrites(start, lh, v);
            && w[..tail + 1] == w[..tail] + [DiskWrite(lh[tail], v[start + 1 + tail])]
            && forall i :: 0 <= i < tail ==> w[..tail][i].blockno in v
  {
    assert InLog(start, start + 1 + tail);
  }

  /** install_trans */
  method InstallTrans(cache: Cache, start: nat, lh: seq<Word>, ghost pins: set<nat>, ghost held: set<Buf>)
    requires Settled(cache, pins, held) && Loggable(start, lh, cache.disk.blocks) && |held| + |pins| + 1 < NBUF
    modifies cache, {cache.head}`next, {cache.head}`prev, cache.pool, cache.disk
    ensures Settled(cache, pins - Blocknos(lh), held)
    ensures Loggable(start, lh, old(cache.Contents()))
    ensures var w := InstallWrites(start, lh, old(cache.Contents()));
            && cache.disk.writes == old(cache.disk.writes) + w
            && cache.disk.blocks == Apply(old(cache.disk.blocks), w)
            && cache.Contents() == Apply(old(cache.Contents()), w)
  {
    hide Indexed, View, Pinned, Held, Coherence, CoherenceBut, Apply, InstallWrites, Blocknos, Settled;
    hide Cache.Ring, Cache.Recency, Cache.Mirrored, Cache.Free;
    SettledMeans(cache, pins, held);
    ghost var d, v := cache.disk.blocks, cache.Contents();
    ghost var w := InstallWrites(start, lh, v);
    ApplyNone(d);
    ApplyNone(v);
    assert Blocknos([]) == {} by { BlocknosNone(); }
    assert lh[..0] == [] && pins - Blocknos([]) == pins;
    var tail := 0;
    while tail < |lh|
      invariant 0 <= tail <= |lh| && Settled(cache, pins - Blocknos(lh[..tail]), held) && cache.Consistent()
      invariant cache.disk.writes == old(cache.disk.writes) + w[..tail]
      invariant cache.disk.blocks == Apply(d, w[..tail]) && cache.Contents() == Apply(v, w[..tail])
    {
      InstallStep(start, lh, v, tail, pins);
      CopyBlock(cache, start + 1 + tail, lh[tail], pins - Blocknos(lh[..tail]), held);
      SettledMeans(cache, pins - Blocknos(lh[..tail + 1]), held);
      tail := tail + 1;
    }
    assert w[..tail] == w && lh[..tail] == lh;
  }

  lemma BlocknosNone()
    ensures Blocknos([]) == {}
  {
  }

  /** The three sequences of writes that commit makes are CommitWrites. */
  lemma CommitInstalls(start: nat, lh: seq<Word>, d: DiskMap, view: DiskMap)
    requires Loggable(start, lh, d) && view.Keys == d.Keys
    ensures start in view && start !in Blocknos(lh)
    ensures var head, lw := view[start], LogWrites(start, lh, view);
            var v1 := Apply(view, lw);
            var v2 := v1[start := PutHead(head, lh)];
            && start in v1 && v1[start] == head && v1.Keys == d.Keys && Apply(d, lw).Keys == d.Keys
            && Loggable(start, lh, v2)
            && var iw := InstallWrites(start, lh, v2);
               var v3 := Apply(v2, iw);
               && v3.Keys == d.Keys && v3[start] == v2[start]
               && CommitWrites(start, lh, view, head) == lw + [HeadWrite(start, head, lh)] + iw + [HeadWrite(start, v2[start], [])]
  {
    hide Apply, PutHead;
    var head, lw := view[start], LogWrites(start, lh, view);
    assert lw[..|lh|] == lw;
    LogEffect(start, lh, view, view, |lh|);
    ApplyKeys(d, lw) by { LogTargets(start, lh, view); }
    CommitPoint(start, lh, view, view, head);
    var v2 := Apply(view, lw)[start := PutHead(head, lh)];
    var iw := InstallWrites(start, lh, v2);
    assert iw[..|lh|] == iw;
    InstallEffect(start, lh, v2, |lh|);
    assert InLog(start, start);
  }

  lemma LogTargets(start: nat, lh: seq<Word>, view: DiskMap)
    requires Loggable(start, lh, view)
    ensures forall i :: 0 <= i < |lh| ==> LogWrites(start, lh, view)[i].blockno in view
  {
    assert forall i {:trigger lh[i]} :: 0 <= i < |lh| ==> InLog(start, start + 1 + i);
  }

  /** What the four procedures of commit do to a disk or to cached contents e, phase by phase, is what CommitWrites does. */
  lemma CommitPhases(start: nat, lh: seq<Word>, v: DiskMap, e: DiskMap)
    requires Loggable(start, lh, v) && e.Keys == v.Keys
    ensures start in v
    ensures var lw := LogWrites(start, lh, v);
            var v2 := Apply(v, lw)[start := PutHead(v[start], lh)];
            && Loggable(start, lh, v2) && start in Apply(v, lw)
            && var iw := InstallWrites(start, lh, v2);
               Apply(Apply(e, lw)[start := PutHead(v[start], lh)], iw)[start := PutHead(v2[start], [])]
               == Apply(e, CommitWrites(start, lh, v, v[start]))
  {
    hide Apply, PutHead, LogWrites, InstallWrites, CommitWrites;
    CommitInstalls(start, lh, v, v);
    var lw, hw := LogWrites(start, lh, v), HeadWrite(start, v[start], lh);
    var v2 := Apply(v, lw)[start := PutHead(v[start], lh)];
    var iw := InstallWrites(start, lh, v2);
    ApplyOne(e, lw, hw);
    ApplyAppend(e, lw + [hw], iw);
    ApplyOne(e, lw + [hw] + iw, HeadWrite(start, v2[start], []));
  }

  /** commit, with something to commit: write_log, write_head, install_trans, write_head. */
  method CommitAll(cache: Cache, start: nat, lh: seq<Word>, ghost held: set<Buf>)
    requires Settled(cache, Blocknos(lh), held) && Loggable(start, lh, cache.disk.blocks) && |held| + |lh| + 1 < NBUF
    modifies cache, {cache.head}`next, {cache.head}`prev, cache.pool, cache.disk
    ensures Settled(cache, {}, held) && start in old(cache.Contents())
    ensures var w := CommitWrites(start, lh, old(cache.Contents()), old(cache.Contents())[start]);
            && cache.disk.writes == old(cache.disk.writes) + w
            && cache.disk.blocks == Apply(old(cache.disk.blocks), w)
            && cache.Contents() == Apply(old(cache.Contents()), w)
  {
    hide Indexed, View, Pinned, Held, Coherence, CoherenceBut, Apply, InstallWrites, LogWrites, CommitWrites, Blocknos, PutHead;
    hide Cache.Ring, Cache.Recency, Cache.Mirrored, Cache.Free;
    ghost var d, v := cache.disk.blocks, cache.Contents();
    BlocknosSize(lh);
    CommitInstalls(start, lh, d, v);
    CommitPhases(start, lh, v, d);
    CommitPhases(start, lh, v, v);
    WriteLog(cache, start, lh, held);
    WriteHead(cache, start, lh, Blocknos(lh), held);
    InstallTrans(cache, start, lh, Blocknos(lh), held);
    WriteHead(cache, start, [], {}, held);
  }

  /** recover_from_log, at boot: the cache shows the disk itself. */
  method Recover(cache: Cache, start: nat)
    requires Settled(cache, {}, {}) && cache.Contents() == cache.disk.blocks && HeadOk(start, cache.disk.blocks)
    modifies cache, {cache.head}`next, {cache.head}`prev, cache.pool, cache.disk
    ensures Settled(cache, {}, {})
    ensures var w := RecoverWrites(start, old(cache.disk.blocks));
            cache.disk.writes == old(cache.disk.writes) + w && cache.disk.blocks == Apply(old(cache.disk.blocks), w)
    ensures cache.Contents() == cache.disk.blocks && Clean(start, cache.disk.blocks)
  {
    hide Indexed, View, Pinned, Held, Coherence, CoherenceBut, Apply, InstallWrites, Blocknos, PutHead, Promises, SameHome, Clean;
    hide Cache.Ring, Cache.Recency, Cache.Mirrored, Cache.Free;
    ghost var d := cache.disk.blocks;
    ghost var w := RecoverWrites(start, d);
    var lh := ReadHead(cache, start);
    assert start in cache.disk.blocks;
    RecoveryShape(start, d);
    InstallTrans(cache, start, lh, {}, {});
    WriteHead(cache, start, [], {}, {});
    assert w[..|w|] == w;
    RecoverPrefix(start, d, Promised(start, d), |w|);
    ApplyOne(d, InstallWrites(start, lh, d), HeadWrite(start, d[start], []));
  }

  lemma RecoveryShape(start: nat, d: DiskMap)
    requires HeadOk(start, d)
    ensures var e := Apply(d, InstallWrites(start, GetHead(d[start]), d));
            start in e && e[start] == d[start] && {} - Blocknos(GetHead(d[start])) == {}
  {
    hide Apply;
    var lh := GetHead(d[start]);
    var w := InstallWrites(start, lh, d);
    assert w[..|lh|] == w && InLog(start, start);
    InstallEffect(start, lh, d, |lh|);
  }

  class Log {
    const cache: Cache
    const start: nat                 // block number of the on-disk header
    var outstanding: nat             // running file system calls
    var committing: bool
    var lh: seq<Word>                // lh.block[..lh.n]
    ghost var hist: seq<DiskMap>     // logical contents after each completed operation
    ghost var torn: set<nat>         // and, at these indices, at each sync that ran in the middle of one
    ghost var done: nat              // hist[done] is what the last finished commit made durable
    ghost var base: nat              // lh.n when the running operation began

    /** An operation starts with at most MAXOPBLOCKS blocks logged. */
    ghost predicate Bounded()
      reads this
    {
      && outstanding <= 1 && !committing
      && (outstanding == 0 ==> |lh| <= MAXOPBLOCKS)
      && (outstanding == 1 ==> base <= MAXOPBLOCKS)
    }

    /** The abstract state of the log, its cache and its disk. */
    ghost function Abs(): Sys
      requires cache.Consistent()
      reads this, cache, cache.disk
    {
      Sys(cache.disk.blocks, cache.Contents(), lh, outstanding == 1, hist, done, torn)
    }

    ghost predicate Valid()
      reads this, cache, {cache.head}`next, {cache.head}`prev, cache.order`next, cache.order`prev, cache.disk
      reads cache.pool`valid, cache.pool`dirty, cache.pool`dev, cache.pool`blockno, cache.pool`refcnt, cache.pool`data
    {
      && cache.Valid() && cache.Coherent() && cache.Dirty() == Blocknos(lh)
      && Bounded() && Inv(start, Abs())
    }

    /** initlog on a disk that mkfs or an earlier run left: recovery runs first. */
    constructor (disk: Disk, start: nat)
      requires HeadOk(start, disk.blocks)
      modifies disk
      ensures Valid() && outstanding == 0 && cache.InUse() == {} && cache.disk == disk && this.start == start
      ensures fresh(cache) && fresh(cache.head) && fresh(cache.pool)
      ensures disk.writes == old(disk.writes) + RecoverWrites(start, old(disk.blocks))
      ensures PowerOn(start, Recovered(start, old(disk.blocks)), Abs())
    {
      hide Indexed, View, Pinned, Held, Coherence, CoherenceBut, Apply, RecoverWrites, Clean, Inv;
      hide Cache.Ring, Cache.Recency, Cache.Mirrored, Cache.Free;
      var c := new Cache(disk);
      Recover(c, start);
      cache, this.start, outstanding, committing, lh, done, base := c, start, 0, false, [], 0, 0;
      hist, torn := [disk.blocks], {};
      new;
      BlocknosNone();
      PowerOnInv(start, disk.blocks, Abs());
    }

    /** isBufFull: at most 1 + MAXOPBLOCKS buffers could be recycled. */
    method IsBufFull() returns (full: bool)
      requires cache.Valid()
      ensures full <==> |cache.Free()| <= 11
    {
      var count := cache.CountFree();
      full := count <= 1 + MAXOPBLOCKS;
    }

    /** The test of begin_op; false stands for the sleep. */
    method BeginOp() returns (ok: bool)
      requires Valid()
      modifies this`outstanding, this`base
      ensures Valid() && cache.Consistent()
      ensures ok <==> old(outstanding) == 0 && |cache.Free()| > 11
      ensures ok ==> Next(start, old(Abs()), Begin, Abs()) && base == |lh| && outstanding == 1
      ensures !ok ==> Abs() == old(Abs()) && outstanding == old(outstanding)
      // an idle log always lets the next operation in while at most 8 buffers are held
      ensures old(outstanding) == 0 && |cache.InUse()| <= 8 ==> ok
    {
      hide Indexed, View, Pinned, Held, Coherence, CoherenceBut, Blocknos, Apply, CommitWrites, Clean, Loggable;
      hide Cache.Ring, Cache.Recency, Cache.Mirrored, Cache.Free;
      cache.FreeCount();
      BlocknosSize(lh);
      if committing {
        return false;
      }
      var full := IsBufFull();
      if outstanding > 0 || full || |lh| + (outstanding + 2) * MAXOPBLOCKS > LOGSIZE {
        return false;
      }
      outstanding := outstanding + 1;
      base := |lh|;
      ok := true;
    }

    /** log_write: absorb a block that is already logged, pin the buffer; false stands for its panics. */
    method LogWrite(b: Buf) returns (ok: bool)
      requires cache.Valid() && cache.Holds(b, b.blockno) && cache.CoherentBut(b.blockno)
      requires cache.Dirty() == Blocknos(lh) && b.blockno < 0x1_0000_0000
      modifies this`lh, cache`now, cache`cached, b`valid, b`dirty, b`dev, b`blockno, b`refcnt, b`data
      ensures ok <==> old(|lh|) < 29 && outstanding >= 1
      ensures !ok ==> lh == old(lh) && cache.now == old(cache.now) && cache.cached == old(cache.cached)
      ensures cache.Valid() && cache.cached == old(cache.cached) && cache.Contents() == old(cache.Contents())
      ensures cache.Dirty() == Blocknos(lh) && cache.InUse() == old(cache.InUse())
      ensures ok ==> cache.Coherent() && b.Get() == old(b.Get()).(dirty := true)
      ensures ok ==> lh == if old(b.blockno) in old(lh) then old(lh) else old(lh) + [old(b.blockno)]
    {
      hide Indexed, View, Pinned, Held, Coherence, CoherenceBut, Blocknos;
      hide Cache.Ring, Cache.Recency, Cache.Mirrored, Cache.Free;
      if |lh| >= LOGSIZE || |lh| >= NLOG - 1 {
        return false;
      }
      if outstanding < 1 {
        return false;
      }
      ghost var n := b.blockno;
      var i := 0;
      while i < |lh|
        invariant 0 <= i <= |lh| && n !in lh[..i]
      {
        if lh[i] == b.blockno {
          break;
        }
        i := i + 1;
      }
      BlocknosAppend(lh, n);
      if i == |lh| {
        lh := lh + [b.blockno];
      } else {
        lh := lh[i := b.blockno];
        assert lh == old(lh) && n in lh;
      }
      cache.Pin(b);
      ok := true;
    }

    /** The holder of b changes its block, logs it and gives b back. */
    method Change(b: Buf, data: Block) returns (ok: bool)
      requires cache.Valid() && cache.Coherent() && cache.Holds(b, b.blockno)
      requires cache.Dirty() == Blocknos(lh) && b.blockno < 0x1_0000_0000
      modifies this`lh, cache, {cache.head}`next, {cache.head}`prev, cache.pool
      ensures ok <==> old(|lh|) < 29 && outstanding >= 1
      ensures ok ==> cache.Valid() && cache.Coherent() && cache.Dirty() == Blocknos(lh)
      ensures ok ==> old(b.blockno) in old(cache.Contents()) && cache.Contents() == old(cache.Contents())[old(b.blockno) := data]
      ensures ok ==> lh == if old(b.blockno) in old(lh) then old(lh) else old(lh) + [old(b.blockno)]
      ensures ok ==> cache.InUse() == if old(b.refcnt) == 1 then old(cache.InUse()) - {b} else old(cache.InUse())
    {
      hide Indexed, View, Pinned, Held, Coherence, CoherenceBut, Blocknos;
      hide Cache.Ring, Cache.Recency, Cache.Mirrored, Cache.Free;
      cache.Modify(b, data);
      ok := LogWrite(b);
      if ok {
        cache.Brelse(b);
      }
    }

    /** The way an operation changes a block: bread, modify, log_write, brelse; false stands for the panics of bget and
        of log_write. */
    method WriteBlock(n: nat, data: Block) returns (ok: bool)
      requires Valid() && outstanding == 1
      requires n in cache.disk.blocks && !InLog(start, n) && n < 0x1_0000_0000
      modifies this`lh, cache, {cache.head}`next, {cache.head}`prev, cache.pool
      ensures ok <==> old(|lh|) < 29 && (n in old(cache.cached) || old(cache.Free()) != {})
      ensures ok ==> cache.Consistent() && cache.Contents() == old(cache.Contents())[n := data]
      ensures ok ==> lh == if n in old(lh) then old(lh) else old(lh) + [n]
      ensures ok ==> Valid() && Next(start, old(Abs()), Write(n, data), Abs())
      ensures ok ==> cache.InUse() == old(cache.InUse()) && |lh| <= old(|lh|) + 1
      // neither happens to an operation that keeps to MAXOPBLOCKS new blocks, with at most 9 buffers held at once
      ensures old(|lh|) <= base + 10 && old(|cache.InUse()|) <= 8 ==> ok
    {
      hide Indexed, View, Pinned, Held, Coherence, CoherenceBut, Blocknos, Apply, CommitWrites, Inv, Next;
      hide Cache.Ring, Cache.Recency, Cache.Mirrored, Cache.Free;
      BlocknosSize(lh);
      ghost var s := Abs();
      var b := cache.Bread(n);
      ok := b != null;
      if ok {
        ok := Change(b, data);
        if ok { WriteStep(start, s, n, data, Abs()); }
      }
    }

    /** commit, whoever holds buffers meanwhile: there must be room for two more. */
    method CommitLog()
      requires Settled(cache, Blocknos(lh), cache.InUse()) && Inv(start, Abs()) && |cache.InUse()| + |lh| + 1 < NBUF
      modifies this`lh, cache, {cache.head}`next, {cache.head}`prev, cache.pool, cache.disk
      ensures Settled(cache, {}, old(cache.InUse())) && lh == []
      ensures Ready(start, old(Abs())) && Abs() == Flushed(start, old(Abs()))
      ensures cache.disk.writes == old(cache.disk.writes) + if old(lh) == [] then [] else Pending(start, old(Abs()))
    {
      hide Indexed, View, Pinned, Held, Coherence, CoherenceBut, Blocknos, Apply, CommitWrites, Inv;
      hide Cache.Ring, Cache.Recency, Cache.Mirrored, Cache.Free;
      InvReady(start, Abs());
      InvLog(start, Abs());
      BlocknosNone();
      if |lh| > 0 {
        CommitAll(cache, start, lh, cache.InUse());
        lh := [];
      }
    }

    /** That is a commit of the run, which covers everything completed. */
    ghost method Cover(s: Sys)
      requires cache.Consistent() && Ready(start, s) && Inv(start, s) && Quiet(start, s) && Abs() == Flushed(start, s)
      modifies this`done
      ensures Inv(start, Abs()) && Next(start, s, Event.Commit, Abs()) && done == |hist| - 1
    {
      hide Apply, CommitWrites, Clean, Loggable, SameHome;
      done := |hist| - 1;
      CommitStep(start, s, Abs());
    }

    /** The part of end_op under log.lock: the operation is complete, and a commit is due when another operation
        might run out of buffers or of log. */
    method Complete() returns (commit: bool)
      requires Valid() && outstanding == 1
      modifies this`outstanding, this`hist
      ensures outstanding == 0 && Settled(cache, Blocknos(lh), cache.InUse()) && Inv(start, Abs()) && Quiet(start, Abs())
      ensures commit <==> |cache.Free()| <= 11 || |lh| > 10
      ensures hist == old(hist) + [cache.Contents()]
      ensures Abs() == old(Abs()).(inOp := false, hist := old(hist) + [cache.Contents()]) && Next(start, old(Abs()), End, Abs())
    {
      hide Indexed, View, Pinned, Held, Coherence, CoherenceBut, Blocknos, Apply, CommitWrites, Inv;
      hide Cache.Ring, Cache.Recency, Cache.Mirrored, Cache.Free;
      ghost var s := Abs();
      outstanding, hist := outstanding - 1, hist + [cache.Contents()];
      QuietStep(start, s, End, Abs());
      CalledQuiet(start, Abs());
      var full := IsBufFull();
      commit := outstanding == 0 && (full || |lh| + (outstanding + 2) * MAXOPBLOCKS > LOGSIZE);
    }

    /** end_op. The operation is complete when the test runs; it commits exactly when at most 1 + MAXOPBLOCKS buffers
        could be recycled or more than MAXOPBLOCKS blocks are logged. The buffers that others hold stay held. */
    method EndOp() returns (commit: bool)
      requires Valid() && outstanding == 1 && |cache.InUse()| + |lh| + 1 < NBUF
      modifies this, cache, {cache.head}`next, {cache.head}`prev, cache.pool, cache.disk
      ensures Valid() && outstanding == 0 && cache.InUse() == old(cache.InUse())
      ensures commit <==> old(|cache.Free()|) <= 11 || old(|lh|) > 10
      ensures lh == if commit then [] else old(lh)
      // the buffers play no part while at most 8 are held
      ensures old(|cache.InUse()|) <= 8 ==> (commit <==> old(|lh|) > 10)
      ensures var s := old(Abs()).(inOp := false, hist := old(hist) + [old(cache.Contents())]);
              && Next(start, old(Abs()), End, s) && Ready(start, s)
              && (if commit then Next(start, s, Event.Commit, Abs()) else Abs() == s)
              && cache.disk.writes == old(cache.disk.writes) + if commit && old(lh) != [] then Pending(start, s) else []
    {
      hide Indexed, View, Pinned, Held, Coherence, CoherenceBut, Blocknos, Apply, CommitWrites, Inv, Next, Flushed, Pending, Quiet, SameHome;
      hide Cache.Ring, Cache.Recency, Cache.Mirrored, Cache.Free;
      cache.FreeCount();
      BlocknosSize(lh);
      BlocknosNone();
      commit := Complete();
      InvReady(start, Abs());
      if commit {
        ghost var s := Abs();
        committing := true;
        CommitLog();
        committing := false;
        Cover(s);
        assert Blocknos(lh) == {};
      }
    }

    /** The history is told that sync has been called. */
    ghost method Note()
      requires cache.Consistent() && Inv(start, Abs())
      modifies this`hist, this`torn
      ensures Abs() == Called(old(Abs())) && Inv(start, Abs()) && Quiet(start, Abs()) && Ready(start, Abs())
      ensures outstanding == 1 ==> Next(start, old(Abs()), Mark, Abs())
      ensures Ready(start, old(Abs())) && Pending(start, Abs()) == Pending(start, old(Abs()))
      ensures Flushed(start, Abs()).disk == Flushed(start, old(Abs())).disk
    {
      hide Apply, CommitWrites, Clean, Loggable;
      InvReady(start, Abs());
      CalledQuiet(start, Abs());
      if outstanding == 1 {
        hist, torn := hist + [cache.Contents()], torn + {|hist|};
        QuietStep(start, old(Abs()), Mark, Abs());
      }
    }

    /** sync, which looks at no counter: it makes durable what readers see, a running operation's half included. */
    method Sync()
      requires Valid() && |cache.InUse()| + |lh| + 1 < NBUF
      modifies this, cache, {cache.head}`next, {cache.head}`prev, cache.pool, cache.disk
      ensures Valid() && lh == [] && outstanding == old(outstanding) && cache.InUse() == old(cache.InUse())
      ensures cache.disk.blocks.Keys == old(cache.Contents()).Keys
      ensures forall n :: n in cache.disk.blocks && !(start <= n < start + 30) ==> cache.disk.blocks[n] == old(cache.Contents())[n]
      // it is a commit of the run, preceded by the note that an operation is running if one is
      ensures old(outstanding) == 1 ==> Next(start, old(Abs()), Mark, Called(old(Abs())))
      ensures Next(start, Called(old(Abs())), Event.Commit, Abs())
      ensures Ready(start, old(Abs())) && cache.disk.writes == old(cache.disk.writes) + if old(lh) == [] then [] else Pending(start, old(Abs()))
    {
      hide Indexed, View, Pinned, Held, Coherence, CoherenceBut, Blocknos, Apply, CommitWrites, Inv, Next, Flushed, Pending, Quiet, SameHome, Called;
      hide Cache.Ring, Cache.Recency, Cache.Mirrored, Cache.Free;
      FlushHome(start, Abs());
      Note();
      ghost var s := Abs();
      committing := true;
      BlocknosNone();
      CommitLog();
      committing := false;
      Cover(s);
    }
  }

  lemma WriteStep(start: nat, s: Sys, n: nat, data: Block, t: Sys)
    requires Inv(start, s) && s.inOp && n in s.view && !InLog(start, n) && n < 0x1_0000_0000 && (n in s.lh || |s.lh| < LOGSIZE - 1)
    requires t == s.(view := s.view[n := data], lh := if n in s.lh then s.lh else s.lh + [n])
    ensures Next(start, s, Write(n, data), t) && Inv(start, t)
  {
    QuietStep(start, s, Write(n, data), t);
  }

  lemma FlushHome(start: nat, s: Sys)
    requires Inv(start, s)
    ensures Ready(start, s)
    ensures var d := Flushed(start, s).disk; d.Keys == s.view.Keys && forall n :: n in d && !(start <= n < start + 30) ==> d[n] == s.view[n]
  {
    hide Flushed, Inv;
    FlushStep(start, s);
    SameExactly(start, Flushed(start, s).disk, s.view);
  }

  lemma CalledQuiet(start: nat, s: Sys)
    requires Inv(start, s)
    ensures Quiet(start, Called(s))
  {
  }

  lemma InvLog(start: nat, s: Sys)
    requires Inv(start, s)
    ensures Loggable(start, s.lh, s.disk) && s.hist != [] && s.view.Keys == s.disk.Keys
  {
  }

  lemma BlocknosAppend(lh: seq<Word>, n: Word)
    ensures Blocknos(lh + [n]) == Blocknos(lh) + {n as nat}
    ensures n in lh ==> Blocknos(lh) + {n as nat} == Blocknos(lh)
  {
    assert forall i :: 0 <= i < |lh| ==> (lh + [n])[i] == lh[i];
    assert (lh + [n])[|lh|] == n;
  }
}
