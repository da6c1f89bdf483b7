/** filewrite of project_01/file.c over its own fs.c: twelve direct blocks, one singly indirect block,
    and every changed block is logged. */
module FileWrite {
  import opened Blocks
  import opened BlockTree
  import opened FileData
  import opened Durability
  import opened Files
  import opened Capacity

  import Bio
  import Commit

  const ND := 12
  const SLOTS := ND + 1 + NWORDS
  const MAXBLOCKS := ND + NWORDS
  const LIMIT := MAXBLOCKS * BSIZE
  const MAXCHUNK := (Commit.MAXOPBLOCKS - 1 - 1 - 2) / 2 * 512

  /* ---------- The two levels as one row of slots ---------- */

  /** Slots 0 to 11 are the direct ones, 12 the root, and the words of the indirect block follow. */
  ghost function Slot(a: seq<Word>, b: seq<Block>, k: nat): nat
    requires |a| == NADDRS && k < SLOTS
  {
    if k <= ND then a[k] else if a[ND] == 0 || a[ND] >= |b| then 0 else GetWord(b[a[ND]], k - ND - 1)
  }

  function SlotOf(bn: nat): nat {
    if bn < ND then bn else bn + 1
  }

  ghost predicate Tree(sb: Super, a: seq<Word>, b: seq<Block>) {
    && Sized(sb, a, b)
    && (forall k :: 0 <= k < SLOTS && Slot(a, b, k) != 0 ==> sb.lo <= Slot(a, b, k) < sb.size && Used(sb, b, Slot(a, b, k)))
    && (forall j, k :: 0 <= j < SLOTS && 0 <= k < SLOTS && j != k && Slot(a, b, j) != 0 ==> Slot(a, b, j) != Slot(a, b, k))
  }

  /** Store f into slot k. */
  ghost function Put(a: seq<Word>, b: seq<Block>, k: nat, f: Word): (seq<Word>, seq<Block>)
    requires |a| == NADDRS && k < SLOTS && (k > ND ==> a[ND] < |b|)
  {
    if k <= ND then (a[k := f], b) else (a, b[a[ND] := SetWord(b[a[ND]], k - ND - 1, f)])
  }

  /** One allocation: the free block f, zeroed, goes into the empty slot k. */
  ghost predicate Step(sb: Super, a1: seq<Word>, b1: seq<Block>, a2: seq<Word>, b2: seq<Block>, k: nat, f: Word) {
    && Tree(sb, a1, b1) && Tree(sb, a2, b2) && k < SLOTS
    && Slot(a1, b1, k) == 0 && sb.lo <= f < sb.size && !Used(sb, b1, f)
    && (forall j :: 0 <= j < SLOTS ==> Slot(a2, b2, j) == if j == k then f as nat else Slot(a1, b1, j))
    && (forall c :: 0 <= c < sb.size ==> Used(sb, b2, c) == (c == f || Used(sb, b1, c)))
    && (forall c :: sb.lo <= c < sb.size && c != f && (k > ND ==> c != a1[ND]) ==> b2[c] == b1[c])
    && b2[f] == ZeroBlock()
  }

  lemma TookSlots(sb: Super, a: seq<Word>, b: seq<Block>, k: nat, f: Word, j: nat)
    requires Tree(sb, a, b) && k < SLOTS && j < SLOTS && Slot(a, b, k) == 0 && (k > ND ==> a[ND] != 0)
    requires sb.lo <= f < sb.size && !Used(sb, b, f)
    ensures a[ND] < sb.size
    ensures var (a2, b2) := Put(a, Taken(sb, b, f), k, f); Slot(a2, b2, j) == if j == k then f as nat else Slot(a, b, j)
  {
    hide Used, Taken, GetWord, SetWord;
    TakenUsed(sb, b, f);
    TakenZero(sb, b, f);
    ZeroWords();
    assert Slot(a, b, ND) == a[ND];
  }

  lemma TookBits(sb: Super, a: seq<Word>, b: seq<Block>, k: nat, f: Word)
    requires Tree(sb, a, b) && k < SLOTS && Slot(a, b, k) == 0 && (k > ND ==> a[ND] != 0)
    requires sb.lo <= f < sb.size && !Used(sb, b, f) && a[ND] < sb.size
    ensures var b2 := Put(a, Taken(sb, b, f), k, f).1;
            && |b2| == sb.size && b2[f] == ZeroBlock()
            && (forall c :: 0 <= c < sb.size ==> Used(sb, b2, c) == (c == f || Used(sb, b, c)))
            && (forall c :: sb.lo <= c < sb.size && c != f && (k > ND ==> c != a[ND]) ==> b2[c] == b[c])
  {
    hide Taken, GetWord, SetWord, Used;
    TakenUsed(sb, b, f);
    TakenZero(sb, b, f);
    assert Slot(a, b, ND) == a[ND];
    BitsKept(sb, Taken(sb, b, f), Put(a, Taken(sb, b, f), k, f).1);
  }

  lemma Took(sb: Super, a: seq<Word>, b: seq<Block>, k: nat, f: Word)
    requires Tree(sb, a, b) && k < SLOTS && Slot(a, b, k) == 0 && (k > ND ==> a[ND] != 0)
    requires sb.lo <= f < sb.size && !Used(sb, b, f)
    ensures a[ND] < sb.size
    ensures var (a2, b2) := Put(a, Taken(sb, b, f), k, f); Step(sb, a, b, a2, b2, k, f)
  {
    hide Used, Taken, Slot, Put;
    TookSlots(sb, a, b, k, f, 0);
    var (a2, b2) := Put(a, Taken(sb, b, f), k, f);
    TookBits(sb, a, b, k, f);
    PutSized(a, Taken(sb, b, f), k, f);
    forall j | 0 <= j < SLOTS ensures Slot(a2, b2, j) == if j == k then f as nat else Slot(a, b, j) {
      TookSlots(sb, a, b, k, f, j);
    }
  }

  lemma PutSized(a: seq<Word>, b: seq<Block>, k: nat, f: Word)
    requires |a| == NADDRS && k < SLOTS && (k > ND ==> a[ND] < |b|)
    ensures |Put(a, b, k, f).0| == NADDRS
  {
  }

  /* ---------- One bmap call ---------- */

  /** The slots 12 and k may have been filled, with blocks that were free, and nothing else changed. */
  ghost predicate Grown(sb: Super, a0: seq<Word>, b0: seq<Block>, a1: seq<Word>, b1: seq<Block>, k: nat) {
    && Tree(sb, a0, b0) && Tree(sb, a1, b1)
    && (forall j :: 0 <= j < SLOTS && Slot(a1, b1, j) != Slot(a0, b0, j) ==>
          && (j == ND || j == k) && Slot(a0, b0, j) == 0 && !Used(sb, b0, Slot(a1, b1, j))
          && (j != ND ==> b1[Slot(a1, b1, j)] == ZeroBlock()))
    && (forall c :: 0 <= c < sb.size && Used(sb, b0, c) ==> Used(sb, b1, c))
    && (forall c :: sb.lo <= c < sb.size && Used(sb, b0, c) && c != a0[ND] ==> b1[c] == b0[c])
  }

  lemma GrownNone(sb: Super, a: seq<Word>, b: seq<Block>, k: nat)
    requires Tree(sb, a, b)
    ensures Grown(sb, a, b, a, b, k)
  {
  }

  /** Filling the root first and then a slot below it, or just a slot. */
  lemma GrownStep(sb: Super, a0: seq<Word>, b0: seq<Block>, a1: seq<Word>, b1: seq<Block>, a2: seq<Word>, b2: seq<Block>, k: nat, j: nat, f: Word)
    requires Grown(sb, a0, b0, a1, b1, k) && Step(sb, a1, b1, a2, b2, j, f) && (j == k || j == ND) && k < SLOTS
    requires j != k ==> a0 == a1 && b0 == b1
    requires j == k ==> Slot(a0, b0, k) == 0
    ensures Grown(sb, a0, b0, a2, b2, k)
  {
    hide Used;
    assert Slot(a1, b1, ND) == a1[ND] && Slot(a0, b0, ND) == a0[ND];
  }

  function Root(a: seq<Word>): set<nat>
    requires |a| == NADDRS
  {
    if a[ND] == 0 then {} else {a[ND] as nat}
  }

  /** How many blocks are free. */
  ghost function Unfilled(sb: Super, b: seq<Block>): nat
    requires sb.Ok() && |b| == sb.size
  {
    |FreeBlocks(sb, b)|
  }

  /** bmap looks at slot k of the inode and allocates a block for it when it is empty. */
  method FillRoot(fs: Fs, ip: Inode, k: nat, ghost target: nat) returns (addr: Word, ok: bool, ghost maps: set<nat>)
    requires fs.Valid() && Tree(fs.sb, ip.addrs, fs.blocks) && k <= ND && (k == target || k == ND) && target < SLOTS
    modifies fs`blocks, fs`logged, ip`addrs
    ensures |fs.blocks| == fs.sb.size && (!ok ==> fs.Stuck()) && |ip.addrs| == NADDRS
    ensures !ok && fs.outstanding >= 1 && |old(fs.logged)| + 2 <= ROOM ==> old(FreeBlocks(fs.sb, fs.blocks)) == FreeBlocks(fs.sb, fs.blocks) == {}
    ensures ok ==> Unfilled(fs.sb, old(fs.blocks)) <= Unfilled(fs.sb, fs.blocks) + if old(ip.addrs[k]) == 0 then 1 else 0
    ensures old(ip.addrs[k]) != 0 ==> ok && fs.blocks == old(fs.blocks) && ip.addrs == old(ip.addrs) && fs.logged == old(fs.logged)
    ensures ok ==> fs.Valid() && Grown(fs.sb, old(ip.addrs), old(fs.blocks), ip.addrs, fs.blocks, target)
    ensures ok ==> addr == ip.addrs[k] != 0 && (k != ND ==> ip.addrs[ND] == old(ip.addrs[ND]))
    ensures ok && k != target ==> Slot(ip.addrs, fs.blocks, target) == old(Slot(ip.addrs, fs.blocks, target))
    ensures ok ==> fs.logged <= old(fs.logged) + maps + {addr as nat} && |maps| <= if old(ip.addrs[k]) == 0 then 1 else 0
    ensures ok ==> Logs(old(fs.blocks), old(fs.logged), fs.blocks, fs.logged) && SameBelow(fs.sb.bmapstart, old(fs.blocks), fs.blocks)
  {
    hide Used, Tree, Grown, Taken, Logs, SameBelow, FreeBlocks, Unfilled;
    ghost var a0, b0, l0 := ip.addrs, fs.blocks, fs.logged;
    TreeMeans(fs.sb, a0, b0, k);
    GrownNone(fs.sb, a0, b0, target);
    NothingYet(fs.sb, b0, l0);
    addr, ok, maps := ip.addrs[k], true, {};
    if addr == 0 {
      addr, ok := fs.Balloc();
      if ok {
        Took(fs.sb, a0, b0, k, addr);
        LogsTaken(fs.sb, b0, l0, addr);
        TakenElsewhere(fs.sb, b0, addr);
        ip.addrs := ip.addrs[k := addr];
        StepMeans(fs.sb, a0, b0, ip.addrs, fs.blocks, k, addr);
        GrownStep(fs.sb, a0, b0, a0, b0, ip.addrs, fs.blocks, target, k, addr);
        maps := {fs.sb.BBlock(addr)};
      }
    }
  }

  lemma TreeMeans(sb: Super, a: seq<Word>, b: seq<Block>, k: nat)
    requires Tree(sb, a, b) && k < SLOTS
    ensures Sized(sb, a, b) && Slot(a, b, ND) == a[ND] && (k <= ND ==> Slot(a, b, k) == a[k])
    ensures Slot(a, b, k) != 0 ==> sb.lo <= Slot(a, b, k) < sb.size
    ensures a[ND] != 0 ==> sb.lo <= a[ND] < sb.size
  {
    assert Slot(a, b, ND) == a[ND];
  }

  lemma StepMeans(sb: Super, a1: seq<Word>, b1: seq<Block>, a2: seq<Word>, b2: seq<Block>, k: nat, f: Word)
    requires Step(sb, a1, b1, a2, b2, k, f) && forall c :: 0 <= c < sb.lo ==> Used(sb, b1, c)
    ensures forall c :: 0 <= c < sb.lo ==> Used(sb, b2, c)
    ensures k != ND ==> a2[ND] == a1[ND]
    ensures forall j :: 0 <= j < SLOTS ==> Slot(a2, b2, j) == if j == k then f as nat else Slot(a1, b1, j)
    ensures Tree(sb, a2, b2) && |b1| == |b2| == sb.size && Unfilled(sb, b1) == Unfilled(sb, b2) + 1
  {
    hide Used;
    assert Slot(a1, b1, ND) == a1[ND] && Slot(a2, b2, ND) == a2[ND];
    OneLess(sb, b1, b2, f);
    assert f in FreeBlocks(sb, b1);
  }

  lemma NothingYet(sb: Super, b: seq<Block>, l: set<nat>)
    ensures Logs(b, l, b, l) && SameBelow(sb.bmapstart, b, b)
  {
  }

  /** Block f is taken, then a word of block root is written; the three blocks that change are logged. */
  lemma TookWord(sb: Super, b: seq<Block>, l: set<nat>, f: nat, root: nat, x: Block)
    requires sb.Ok() && |b| == sb.size && sb.lo <= f < sb.size && sb.lo <= root < sb.size
    ensures var b2 := Taken(sb, b, f)[root := x];
            Logs(b, l, b2, l + {sb.BBlock(f), f} + {root}) && SameBelow(sb.bmapstart, b, b2)
  {
    hide Taken;
    TakenElsewhere(sb, b, f);
  }

  /** The same for a word of the indirect block, which is logged when it changes. */
  method FillWord(fs: Fs, ghost a: seq<Word>, root: Word, k: nat) returns (addr: Word, ok: bool, ghost maps: set<nat>)
    requires fs.Valid() && Tree(fs.sb, a, fs.blocks) && ND < k < SLOTS && root == a[ND] != 0
    modifies fs`blocks, fs`logged
    ensures |fs.blocks| == fs.sb.size && (!ok ==> fs.Stuck())
    ensures !ok && fs.outstanding >= 1 && |old(fs.logged)| + 3 <= ROOM ==> old(FreeBlocks(fs.sb, fs.blocks)) == FreeBlocks(fs.sb, fs.blocks) == {}
    ensures ok ==> Unfilled(fs.sb, old(fs.blocks)) <= Unfilled(fs.sb, fs.blocks) + if old(Slot(a, fs.blocks, k)) == 0 then 1 else 0
    ensures old(Slot(a, fs.blocks, k)) != 0 ==> ok && addr == old(Slot(a, fs.blocks, k)) && fs.blocks == old(fs.blocks) && fs.logged == old(fs.logged)
    ensures ok && old(Slot(a, fs.blocks, k)) == 0 ==> addr != 0 && Step(fs.sb, a, old(fs.blocks), a, fs.blocks, k, addr)
    ensures ok ==> fs.Valid() && addr == Slot(a, fs.blocks, k)
    ensures ok ==> fs.logged <= old(fs.logged) + maps + {addr as nat, root as nat}
    ensures ok ==> |maps| <= if old(Slot(a, fs.blocks, k)) == 0 then 1 else 0
    ensures ok ==> Logs(old(fs.blocks), old(fs.logged), fs.blocks, fs.logged) && SameBelow(fs.sb.bmapstart, old(fs.blocks), fs.blocks)
  {
    hide Used, Tree, Taken, SetWord, GetWord, Step, Logs, SameBelow, FreeBlocks, Unfilled;
    ghost var b, l := fs.blocks, fs.logged;
    TreeMeans(fs.sb, a, b, k);
    NothingYet(fs.sb, b, l);
    addr, ok, maps := GetWord(fs.blocks[root], k - ND - 1), true, {};
    if addr == 0 {
      addr, ok := fs.Balloc();
      if ok {
        Took(fs.sb, a, b, k, addr);
        TookWord(fs.sb, b, l, addr, root, SetWord(fs.blocks[root], k - ND - 1, addr));
        fs.blocks := fs.blocks[root := SetWord(fs.blocks[root], k - ND - 1, addr)];
        StepMeans(fs.sb, a, b, a, fs.blocks, k, addr);
        maps := {fs.sb.BBlock(addr)};
        ok := fs.LogWrite(root);
      }
    }
  }

  /** How many blocks mapping slot k takes. */
  ghost function Need(a: seq<Word>, b: seq<Block>, k: nat): nat
    requires |a| == NADDRS && k < SLOTS
  {
    (if Slot(a, b, k) == 0 then 1 else 0) + (if k > ND && a[ND] == 0 then 1 else 0)
  }

  /** What bmap does when it returns addr for slot k: the tree grows at most there, a mapped slot is found
      without a change, and every block that changes is logged; maps are the bitmap blocks among them. */
  ghost predicate Mapped(sb: Super, a0: seq<Word>, b0: seq<Block>, l0: set<nat>, a1: seq<Word>, b1: seq<Block>, l1: set<nat>,
                         k: nat, addr: nat, maps: set<nat>)
    requires |a0| == NADDRS && k < SLOTS
  {
    && Grown(sb, a0, b0, a1, b1, k)
    && |a1| == NADDRS && addr == Slot(a1, b1, k) != 0
    && l1 <= l0 + maps + {addr} + Root(a1) && Root(a0) <= Root(a1)
    && |maps| <= (if Slot(a0, b0, k) == 0 then 1 else 0) + (if Root(a0) == {} != Root(a1) then 1 else 0)
    && Logs(b0, l0, b1, l1) && SameBelow(sb.bmapstart, b0, b1)
    && Unfilled(sb, b0) <= Unfilled(sb, b1) + Need(a0, b0, k)
  }

  twostate predicate Unchanged(fs: Fs, ip: Inode)
    reads fs, ip
  {
    fs.blocks == old(fs.blocks) && ip.addrs == old(ip.addrs) && fs.logged == old(fs.logged)
  }

  /** The indirect half of bmap. */
  method BmapIndirect(fs: Fs, ip: Inode, i: nat) returns (addr: Word, ok: bool, ghost maps: set<nat>)
    requires fs.Valid() && Tree(fs.sb, ip.addrs, fs.blocks) && i < NWORDS
    modifies fs`blocks, fs`logged, ip`addrs
    ensures |fs.blocks| == fs.sb.size && (!ok ==> fs.Stuck()) && |ip.addrs| == NADDRS
    ensures !ok && fs.outstanding >= 1 && |old(fs.logged)| + 5 <= ROOM ==>
      FreeBlocks(fs.sb, fs.blocks) == {} && old(Unfilled(fs.sb, fs.blocks)) < old(Need(ip.addrs, fs.blocks, ND + 1 + i))
    ensures ok ==> fs.Valid() && Mapped(fs.sb, old(ip.addrs), old(fs.blocks), old(fs.logged), ip.addrs, fs.blocks, fs.logged, ND + 1 + i, addr, maps)
    ensures old(Slot(ip.addrs, fs.blocks, ND + 1 + i)) != 0 ==> ok && Unchanged(fs, ip) && maps == {}
  {
    hide Used, Tree, Grown, Slot, Step, Root, Mapped, Need, FreeBlocks, Unfilled;
    ghost var a0, b0, l0 := ip.addrs, fs.blocks, fs.logged;
    var k := ND + 1 + i;
    TreeMeans(fs.sb, a0, b0, k);
    NoRoot(a0, b0, k);
    NeedWord(a0, b0, k);
    var root;
    root, ok, maps := FillRoot(fs, ip, ND, k);
    addr := 0;
    if ok {
      ghost var a1, b1, first := ip.addrs, fs.blocks, maps;
      GrownTree(fs.sb, a0, b0, a1, b1, k);
      GrewBy(l0, fs.logged, first, {root as nat});
      NoneLeft(fs.sb, b1);
      ghost var more;
      addr, ok, more := FillWord(fs, a1, root, k);
      maps := first + more;
      if ok {
        GrownMore(fs.sb, a0, b0, a1, b1, fs.blocks, k, addr);
        UnionSize(first, more);
        MappedWord(fs.sb, a0, b0, l0, a1, fs.blocks, fs.logged, k, addr, maps, root);
      }
    } else {
      NoneLeft(fs.sb, b0);
    }
  }

  /** bmap of project_01: false stands for its panics. */
  method Bmap(fs: Fs, ip: Inode, bn: nat) returns (addr: Word, ok: bool, ghost maps: set<nat>)
    requires fs.Valid() && Tree(fs.sb, ip.addrs, fs.blocks)
    modifies fs`blocks, fs`logged, ip`addrs
    ensures |fs.blocks| == fs.sb.size && (!ok ==> bn >= MAXBLOCKS || fs.Stuck()) && |ip.addrs| == NADDRS
    // with room in the log it fails only for want of as many free blocks as there are slots to fill
    ensures !ok && bn < MAXBLOCKS && fs.outstanding >= 1 && |old(fs.logged)| + 5 <= ROOM ==>
      FreeBlocks(fs.sb, fs.blocks) == {} && old(Unfilled(fs.sb, fs.blocks)) < old(Need(ip.addrs, fs.blocks, SlotOf(bn)))
    ensures ok ==> bn < MAXBLOCKS && fs.Valid()
    ensures ok ==> Mapped(fs.sb, old(ip.addrs), old(fs.blocks), old(fs.logged), ip.addrs, fs.blocks, fs.logged, SlotOf(bn), addr, maps)
    ensures bn < MAXBLOCKS && old(Slot(ip.addrs, fs.blocks, SlotOf(bn))) != 0 ==> ok && Unchanged(fs, ip) && maps == {}
    // the first twelve blocks are at the addresses of the inode, the others at those of the block that the last one names
    ensures ok && bn < 12 ==> addr == ip.addrs[bn] != 0
    ensures ok && bn >= 12 ==> bn < 140 && 0 < ip.addrs[12] < |fs.blocks| && addr == GetWord(fs.blocks[ip.addrs[12]], bn - 12) != 0
  {
    hide Used, Tree, Grown, Slot, Step, Root, Mapped, Need, FreeBlocks, Unfilled, Logs, SameBelow;
    ghost var a0, b0, l0 := ip.addrs, fs.blocks, fs.logged;
    TreeMeans(fs.sb, a0, b0, 0);
    if bn < ND {
      TreeMeans(fs.sb, a0, b0, bn);
      NeedRoot(a0, b0, bn);
      NoneLeft(fs.sb, b0);
      addr, ok, maps := FillRoot(fs, ip, bn, bn);
      if ok {
        MappedRoot(fs.sb, a0, b0, l0, ip.addrs, fs.blocks, fs.logged, bn, addr, maps);
      }
    } else if bn - ND < NWORDS {
      addr, ok, maps := BmapIndirect(fs, ip, bn - ND);
    } else {
      addr, ok, maps := 0, false, {};
    }
    if ok {
      MappedAt(fs.sb, a0, b0, l0, ip.addrs, fs.blocks, fs.logged, bn, addr, maps);
    }
  }

  lemma MappedAt(sb: Super, a0: seq<Word>, b0: seq<Block>, l0: set<nat>, a1: seq<Word>, b1: seq<Block>, l1: set<nat>,
                 bn: nat, addr: nat, maps: set<nat>)
    requires |a0| == NADDRS && bn < MAXBLOCKS && Mapped(sb, a0, b0, l0, a1, b1, l1, SlotOf(bn), addr, maps)
    ensures |a1| == NADDRS && addr != 0 && (if bn < 12 then addr == a1[bn] as nat else 0 < a1[12] < |b1| && addr == GetWord(b1[a1[12]], bn - 12))
  {
    hide Used, Grown, Need;
    MappedMeans(sb, a0, b0, l0, a1, b1, l1, SlotOf(bn), addr, maps);
    GrownTree(sb, a0, b0, a1, b1, SlotOf(bn));
  }

  lemma NoneLeft(sb: Super, b: seq<Block>)
    requires sb.Ok() && |b| == sb.size
    ensures FreeBlocks(sb, b) == {} <==> Unfilled(sb, b) == 0
  {
    hide FreeBlocks;
  }

  lemma NeedRoot(a: seq<Word>, b: seq<Block>, k: nat)
    requires |a| == NADDRS && k < ND
    ensures Need(a, b, k) == if a[k] == 0 then 1 else 0
  {
  }

  lemma NeedWord(a: seq<Word>, b: seq<Block>, k: nat)
    requires |a| == NADDRS && ND < k < SLOTS
    ensures Need(a, b, k) == (if Slot(a, b, k) == 0 then 1 else 0) + (if a[ND] == 0 then 1 else 0)
  {
  }

  lemma MappedRoot(sb: Super, a0: seq<Word>, b0: seq<Block>, l0: set<nat>, a1: seq<Word>, b1: seq<Block>, l1: set<nat>,
                   k: nat, addr: Word, maps: set<nat>)
    requires |a0| == |a1| == NADDRS && k < ND && Grown(sb, a0, b0, a1, b1, k) && addr == a1[k] != 0 && a1[ND] == a0[ND]
    requires l1 <= l0 + maps + {addr as nat} && |maps| <= if a0[k] == 0 then 1 else 0
    requires Logs(b0, l0, b1, l1) && SameBelow(sb.bmapstart, b0, b1)
    requires sb.Ok() && |b0| == |b1| == sb.size && Unfilled(sb, b0) <= Unfilled(sb, b1) + if a0[k] == 0 then 1 else 0
    ensures Mapped(sb, a0, b0, l0, a1, b1, l1, k, addr, maps)
  {
    hide Grown, Logs, Used, Unfilled;
    GrownTree(sb, a0, b0, a1, b1, k);
    TreeMeans(sb, a0, b0, k);
    TreeMeans(sb, a1, b1, k);
  }

  lemma MappedWord(sb: Super, a0: seq<Word>, b0: seq<Block>, l0: set<nat>, a1: seq<Word>, b1: seq<Block>, l1: set<nat>,
                   k: nat, addr: Word, maps: set<nat>, root: Word)
    requires |a0| == |a1| == NADDRS && ND < k < SLOTS && Grown(sb, a0, b0, a1, b1, k) && addr as nat == Slot(a1, b1, k) != 0
    requires root == a1[ND] != 0 && (a0[ND] != 0 ==> a1[ND] == a0[ND])
    requires l1 <= l0 + maps + {addr as nat, root as nat}
    requires |maps| <= (if Slot(a0, b0, k) == 0 then 1 else 0) + (if a0[ND] == 0 then 1 else 0)
    requires Logs(b0, l0, b1, l1) && SameBelow(sb.bmapstart, b0, b1)
    requires sb.Ok() && |b0| == |b1| == sb.size && Unfilled(sb, b0) <= Unfilled(sb, b1) + Need(a0, b0, k)
    ensures Mapped(sb, a0, b0, l0, a1, b1, l1, k, addr, maps)
  {
    hide Grown, Logs, Used, Unfilled, Slot;
  }

  lemma NoRoot(a: seq<Word>, b: seq<Block>, k: nat)
    requires |a| == NADDRS && ND < k < SLOTS
    ensures a[ND] == 0 ==> Slot(a, b, k) == 0
  {
  }

  lemma GrownMore(sb: Super, a0: seq<Word>, b0: seq<Block>, a1: seq<Word>, b1: seq<Block>, b2: seq<Block>, k: nat, f: Word)
    requires Grown(sb, a0, b0, a1, b1, k) && ND < k < SLOTS && Slot(a1, b1, k) == Slot(a0, b0, k)
    requires if Slot(a1, b1, k) == 0 then Step(sb, a1, b1, a1, b2, k, f) else b2 == b1
    ensures Grown(sb, a0, b0, a1, b2, k)
  {
    hide Grown, Step, Slot, Tree;
    GrownTree(sb, a0, b0, a1, b1, k);
    TreeMeans(sb, a1, b1, k);
    if Slot(a1, b1, k) == 0 { GrownStep(sb, a0, b0, a1, b1, a1, b2, k, k, f); }
  }

  lemma UnionSize(a: set<nat>, b: set<nat>)
    ensures |a + b| <= |a| + |b| && a + {} == a
  {
    assert |a + b| == |a| + |b| - |a * b|;
  }

  lemma GrewBy(l0: set<nat>, l1: set<nat>, maps: set<nat>, rest: set<nat>)
    requires l1 <= l0 + maps + rest
    ensures |l1| <= |l0| + |maps| + |rest|
  {
    Bio.SubsetSize(l1, l0 + maps + rest);
    UnionSize(l0 + maps, rest);
    UnionSize(l0, maps);
  }

  lemma GrownTree(sb: Super, a0: seq<Word>, b0: seq<Block>, a1: seq<Word>, b1: seq<Block>, k: nat)
    requires Grown(sb, a0, b0, a1, b1, k)
    ensures Tree(sb, a1, b1) && Tree(sb, a0, b0) && Sized(sb, a0, b0) && Sized(sb, a1, b1)
    ensures a0[ND] != 0 ==> a1[ND] == a0[ND]
  {
    assert Slot(a1, b1, ND) == a1[ND] && Slot(a0, b0, ND) == a0[ND];
  }

  /* ---------- Bytes ---------- */

  ghost predicate NoHoles(a: seq<Word>, b: seq<Block>, size: nat)
    requires |a| == NADDRS
  {
    size <= LIMIT && forall bn {:trigger SlotOf(bn)} :: 0 <= bn < MAXBLOCKS && bn * BSIZE < size ==> Slot(a, b, SlotOf(bn)) != 0
  }

  ghost function ByteAt(a: seq<Word>, b: seq<Block>, i: nat): Byte
    requires |a| == NADDRS && i < LIMIT
  {
    var c := Slot(a, b, SlotOf(i / BSIZE));
    if c == 0 || c >= |b| then 0 else b[c][i % BSIZE]
  }

  ghost function Content(a: seq<Word>, b: seq<Block>, size: nat): (c: seq<Byte>)
    requires |a| == NADDRS && size <= LIMIT
    ensures |c| == size
  {
    seq(size, i requires 0 <= i < size => ByteAt(a, b, i))
  }

  /** A file without holes has an address for each of its blocks: the first twelve in the inode, up to 128 more in the
      block that the last one names. */
  lemma NoHolesExactly(a: seq<Word>, b: seq<Block>, size: nat)
    requires |a| == NADDRS
    ensures NoHoles(a, b, size) <==>
      && size <= 140 * 512
      && (forall bn :: 0 <= bn < 12 && bn * 512 < size ==> a[bn] != 0)
      && (12 * 512 < size ==> 0 < a[12] < |b| && forall i {:trigger GetWord(b[a[12]], i)} :: 0 <= i < 128 && (12 + i) * 512 < size ==> GetWord(b[a[12]], i) != 0)
  {
    hide GetWord;
    if NoHoles(a, b, size) {
      forall bn | 0 <= bn < 12 && bn * 512 < size ensures a[bn] != 0 { assert SlotOf(bn) == bn; }
      if 12 * 512 < size { assert Slot(a, b, SlotOf(12)) != 0; }
      forall i | 0 <= i < 128 && (12 + i) * 512 < size ensures 0 < a[12] < |b| && GetWord(b[a[12]], i) != 0 {
        assert Slot(a, b, SlotOf(12 + i)) != 0;
      }
    }
  }

  /** Byte i of the file is byte i % 512 of the block at the address for file block i / 512. */
  lemma ContentExactly(a: seq<Word>, b: seq<Block>, size: nat, i: nat)
    requires |a| == NADDRS && NoHoles(a, b, size) && i < size
    ensures size <= 140 * 512
    ensures var bn := i / 512;
            if bn < 12 then a[bn] < |b| ==> Content(a, b, size)[i] == b[a[bn]][i % 512]
            else a[12] < |b| && (GetWord(b[a[12]], bn - 12) < |b| ==> Content(a, b, size)[i] == b[GetWord(b[a[12]], bn - 12)][i % 512])
  {
    hide GetWord;
    assert Content(a, b, size)[i] == ByteAt(a, b, i);
    assert Slot(a, b, SlotOf(i / BSIZE)) != 0;
  }

  /** Rewriting a data block changes no slot and no bit. */
  lemma Rewritten(sb: Super, a: seq<Word>, b: seq<Block>, k: nat, x: Block)
    requires Tree(sb, a, b) && k < SLOTS && k != ND && Slot(a, b, k) != 0
    ensures sb.lo <= Slot(a, b, k) < sb.size
    ensures var b2 := b[Slot(a, b, k) := x];
            && (forall j :: 0 <= j < SLOTS ==> Slot(a, b2, j) == Slot(a, b, j))
            && (forall c :: 0 <= c < sb.size ==> Used(sb, b2, c) == Used(sb, b, c))
            && Tree(sb, a, b2)
  {
    hide GetBit, GetWord;
    assert Slot(a, b, ND) == a[ND];
    assert forall c :: 0 <= c < sb.size ==> sb.BBlock(c) < sb.lo;
  }

  /** One round of the loop of writei. */
  lemma Round(sb: Super, a1: seq<Word>, b1: seq<Block>, a2: seq<Word>, b2: seq<Block>, size: nat, off: nat, s: seq<Byte>)
    requires size <= LIMIT && off <= size && 0 < |s| && off % BSIZE + |s| <= BSIZE && off + |s| <= LIMIT
    requires var k := SlotOf(off / BSIZE);
             && Grown(sb, a1, b1, a2, b2, k) && Slot(a2, b2, k) != 0
             && (Slot(a1, b1, k) != 0 ==> b2 == b1 && a2 == a1)
    requires NoHoles(a1, b1, size)
    ensures var c := Slot(a2, b2, SlotOf(off / BSIZE));
            sb.lo <= c < sb.size && |b2| == sb.size &&
            var b3 := b2[c := Overwrite(b2[c], off % BSIZE, s)];
            && Tree(sb, a2, b3) && NoHoles(a2, b3, Max(size, off + |s|))
            && (forall d :: 0 <= d < sb.size ==> Used(sb, b3, d) == Used(sb, b2, d))
            && Content(a2, b3, Max(size, off + |s|)) == Splice(Content(a1, b1, size), off, s)
  {
    hide Used, Slot, Grown, Tree, Splice;
    var bn, k := off / BSIZE, SlotOf(off / BSIZE);
    GrownTree(sb, a1, b1, a2, b2, k);
    var c := Slot(a2, b2, k);
    TreeMeans(sb, a2, b2, k);
    var b3 := b2[c := Overwrite(b2[c], off % BSIZE, s)];
    Rewritten(sb, a2, b2, k, Overwrite(b2[c], off % BSIZE, s));
    var size' := Max(size, off + |s|);
    forall m | 0 <= m < MAXBLOCKS && m * BSIZE < size' ensures Slot(a2, b3, SlotOf(m)) != 0 {
      assert m == bn || m * BSIZE < size;
      if m != bn { GrownKeeps(sb, a1, b1, a2, b2, k, SlotOf(m)); }
    }
    SpliceSize(Content(a1, b1, size), off, s);
    forall i | 0 <= i < size' ensures ByteAt(a2, b3, i) == Splice(Content(a1, b1, size), off, s)[i] {
      RoundByte(sb, a1, b1, a2, b2, size, off, s, i);
    }
    assert Content(a2, b3, size') == Splice(Content(a1, b1, size), off, s);
  }

  lemma SpliceSize(c: seq<Byte>, off: nat, s: seq<Byte>)
    requires off <= |c|
    ensures |Splice(c, off, s)| == Max(|c|, off + |s|)
  {
  }

  lemma GrownKeeps(sb: Super, a0: seq<Word>, b0: seq<Block>, a1: seq<Word>, b1: seq<Block>, k: nat, j: nat)
    requires Grown(sb, a0, b0, a1, b1, k) && j < SLOTS && Slot(a0, b0, j) != 0
    ensures Slot(a1, b1, j) == Slot(a0, b0, j) < sb.size && (j != ND ==> b1[Slot(a0, b0, j)] == b0[Slot(a0, b0, j)])
    ensures j != k && k < SLOTS ==> Slot(a1, b1, k) != Slot(a0, b0, j)
  {
    hide Used;
    assert Slot(a0, b0, ND) == a0[ND];
  }

  lemma RoundByte(sb: Super, a1: seq<Word>, b1: seq<Block>, a2: seq<Word>, b2: seq<Block>, size: nat, off: nat, s: seq<Byte>, i: nat)
    requires size <= LIMIT && off <= size && 0 < |s| && off % BSIZE + |s| <= BSIZE && off + |s| <= LIMIT
    requires i < Max(size, off + |s|)
    requires var k := SlotOf(off / BSIZE);
             && Grown(sb, a1, b1, a2, b2, k) && Slot(a2, b2, k) != 0
             && (Slot(a1, b1, k) != 0 ==> b2 == b1 && a2 == a1)
    requires NoHoles(a1, b1, size)
    ensures var c := Slot(a2, b2, SlotOf(off / BSIZE));
            c < sb.size && |b2| == sb.size &&
            ByteAt(a2, b2[c := Overwrite(b2[c], off % BSIZE, s)], i) == Splice(Content(a1, b1, size), off, s)[i]
  {
    hide Used, Slot, Grown, Tree, Splice, Overwrite;
    var bn, m := off / BSIZE, i / BSIZE;
    var k, q := SlotOf(bn), SlotOf(m);
    GrownTree(sb, a1, b1, a2, b2, k);
    TreeMeans(sb, a2, b2, k);
    var c, d := Slot(a2, b2, k), Slot(a2, b2, q);
    Rewritten(sb, a2, b2, k, Overwrite(b2[c], off % BSIZE, s));
    SpliceAt(Content(a1, b1, size), off, s, i);
    if m == bn {
      OverwriteAt(b2[c], off, s, i);
    } else {
      SameBlock(off, |s|, i);
      assert m * BSIZE < size && Slot(a1, b1, q) != 0;
      GrownKeeps(sb, a1, b1, a2, b2, k, q);
      assert d != c;
    }
  }

  /* ---------- One transaction ---------- */

  /** How many blocks the bytes from offset to offset + n lie in. */
  function Rounds(offset: nat, n: nat): nat {
    if n == 0 then 0 else (offset + n - 1) / BSIZE - offset / BSIZE + 1
  }

  /** How many of them may be new: a first block that is entered in the middle has bytes already. */
  function News(offset: nat, rounds: nat): nat {
    if offset % BSIZE == 0 || rounds == 0 then rounds else rounds - 1
  }

  /** The blocks one transaction has given to the log: data blocks, bitmap blocks, the indirect block, the inode. */
  ghost predicate Budget(logged: set<nat>, base: set<nat>, data: set<nat>, maps: set<nat>, root: set<nat>, inode: set<nat>) {
    logged <= base + data + maps + root + inode
  }

  lemma BudgetSize(logged: set<nat>, base: set<nat>, data: set<nat>, maps: set<nat>, root: set<nat>, inode: set<nat>)
    requires Budget(logged, base, data, maps, root, inode)
    ensures |logged - base| <= |data| + |maps| + |root| + |inode|
  {
    Bio.SubsetSize(logged - base, data + maps + root + inode);
    UnionSize(data + maps + root, inode);
    UnionSize(data + maps, root);
    UnionSize(data, maps);
  }

  /** What a write of tot bytes from offset on has given to the log, the root of the file having been r0. */
  ghost predicate Within(logged: set<nat>, base: set<nat>, r0: set<nat>, r: set<nat>, offset: nat, tot: nat) {
    exists data, maps :: Within2(logged, base, data, maps, r0, r, offset, tot)
  }

  ghost predicate Within2(logged: set<nat>, base: set<nat>, data: set<nat>, maps: set<nat>, r0: set<nat>, r: set<nat>, offset: nat, tot: nat) {
    && Budget(logged, base, data, maps, r, {}) && r0 <= r
    && |data| <= Rounds(offset, tot)
    && |maps| <= News(offset, Rounds(offset, tot)) + if r0 == {} != r then 1 else 0
  }

  lemma WithinNone(base: set<nat>, r: set<nat>, offset: nat)
    ensures Within(base, base, r, r, offset, 0)
  {
    assert Within2(base, base, {}, {}, r, r, offset, 0);
  }

  lemma WithinRound(l0: set<nat>, l1: set<nat>, base: set<nat>, ra: set<nat>, r0: set<nat>, r1: set<nat>,
                    offset: nat, tot: nat, m: nat, addr: nat, more: set<nat>)
    requires Within(l0, base, ra, r0, offset, tot) && l1 <= l0 + more + {addr} + r1 && r0 <= r1
    requires |more| <= (if tot == 0 && offset % BSIZE != 0 then 0 else 1) + (if r0 == {} != r1 then 1 else 0)
    requires tot == 0 || (offset + tot) % BSIZE == 0
    requires 0 < m <= BSIZE - (offset + tot) % BSIZE
    ensures Within(l1, base, ra, r1, offset, tot + m)
  {
    hide Rounds, Within2;
    var data, maps :| Within2(l0, base, data, maps, ra, r0, offset, tot);
    NextRound(offset, tot, m);
    RoundsAt(offset, tot);
    Within2Round(l0, l1, base, data, maps, ra, r0, r1, offset, tot, tot + m, addr, more);
  }

  lemma Within2Round(l0: set<nat>, l1: set<nat>, base: set<nat>, data: set<nat>, maps: set<nat>, ra: set<nat>, r0: set<nat>, r1: set<nat>,
                     offset: nat, tot: nat, tot': nat, addr: nat, more: set<nat>)
    requires Within2(l0, base, data, maps, ra, r0, offset, tot) && l1 <= l0 + more + {addr} + r1 && r0 <= r1
    requires Rounds(offset, tot') == Rounds(offset, tot) + 1 && (Rounds(offset, tot) == 0 <==> tot == 0)
    requires |more| <= (if tot == 0 && offset % BSIZE != 0 then 0 else 1) + (if r0 == {} != r1 then 1 else 0)
    ensures Within2(l1, base, data + {addr}, maps + more, ra, r1, offset, tot')
  {
    hide Rounds;
    UnionSize(data, {addr});
    UnionSize(maps, more);
  }

  lemma WithinAll(l0: set<nat>, l1: set<nat>, base: set<nat>, r0: set<nat>, r: set<nat>, offset: nat, n: nat, inode: nat)
    requires Within(l0, base, r0, r, offset, n) && l1 <= l0 + {inode} && |r| <= 1
    ensures |l1 - base| <= Rounds(offset, n) + News(offset, Rounds(offset, n)) + 3
  {
    hide Rounds;
    var data, maps :| Within2(l0, base, data, maps, r0, r, offset, n);
    assert Budget(l1, base, data, maps, r, {inode});
    BudgetSize(l1, base, data, maps, r, {inode});
  }

  /** Before the write is done the log is within the bound for all of it. */
  lemma WithinSize(l: set<nat>, base: set<nat>, r0: set<nat>, r: set<nat>, offset: nat, tot: nat, n: nat)
    requires Within(l, base, r0, r, offset, tot) && tot <= n && |r| <= 1
    ensures |l| <= |base| + Rounds(offset, n) + News(offset, Rounds(offset, n)) + 3
  {
    hide Within;
    WithinAll(l, l, base, r0, r, offset, tot, 0);
    RoundsMore(offset, tot, n);
    assert l == l * base + (l - base);
    Bio.SubsetSize(l * base, base);
  }

  lemma RoundsMore(offset: nat, tot: nat, n: nat)
    requires tot <= n
    ensures Rounds(offset, tot) <= Rounds(offset, n) && News(offset, Rounds(offset, tot)) <= News(offset, Rounds(offset, n))
  {
    if tot > 0 { assert (offset + tot - 1) / BSIZE <= (offset + n - 1) / BSIZE; }
    if n > 0 { assert (offset + n - 1) / BSIZE >= offset / BSIZE; }
  }

  lemma NextRound(offset: nat, tot: nat, m: nat)
    requires tot == 0 || (offset + tot) % BSIZE == 0
    requires 0 < m <= BSIZE - (offset + tot) % BSIZE
    ensures Rounds(offset, tot + m) == Rounds(offset, tot) + 1
  {
    if tot > 0 {
      var q := (offset + tot) / BSIZE;
      assert offset + tot == q * BSIZE;
      assert (offset + tot - 1) / BSIZE == q - 1;
      assert (offset + tot + m - 1) / BSIZE == q;
    } else {
      assert (offset + m - 1) / BSIZE == offset / BSIZE;
    }
  }

  /** A chunk of filewrite lies in at most four blocks, three of them new, so it logs at most MAXOPBLOCKS. */
  lemma ChunkBound(offset: nat, n: nat)
    requires n <= 1536
    ensures Rounds(offset, n) + News(offset, Rounds(offset, n)) + 3 <= 10
    // a full chunk that starts inside a block has the whole budget
    ensures n == 1536 && offset % 512 != 0 ==> Rounds(offset, n) + News(offset, Rounds(offset, n)) + 3 == 10
  {
    var q, r := offset / BSIZE, offset % BSIZE;
    assert offset == q * BSIZE + r;
    assert (q * BSIZE + (r + n - 1)) / BSIZE == q + (r + n - 1) / BSIZE;
  }

  ghost predicate Sound(fs: Fs, ip: Inode)
    reads fs, ip
  {
    fs.Valid() && fs.Homed(ip) && Tree(fs.sb, ip.addrs, fs.blocks) && NoHoles(ip.addrs, fs.blocks, ip.size)
  }

  ghost function Bytes(fs: Fs, ip: Inode): seq<Byte>
    requires Sound(fs, ip)
    reads fs, ip
  {
    Content(ip.addrs, fs.blocks, ip.size)
  }

  /** The file has grown from tree 0 to tree 1: slots that were in use hold the blocks they held, the others hold blocks
      that were free, and no block in use has changed that is not the file's. */
  ghost predicate Outgrown(sb: Super, a0: seq<Word>, b0: seq<Block>, a1: seq<Word>, b1: seq<Block>) {
    && Tree(sb, a0, b0) && Tree(sb, a1, b1)
    && (forall j :: 0 <= j < SLOTS && Slot(a1, b1, j) != Slot(a0, b0, j) ==> Slot(a0, b0, j) == 0 && !Used(sb, b0, Slot(a1, b1, j)))
    && (forall c :: 0 <= c < sb.size && Used(sb, b0, c) ==> Used(sb, b1, c))
    && (forall c :: sb.lo <= c < sb.size && Used(sb, b0, c) && !Held(a0, b0, c) ==> b1[c] == b0[c])
  }

  ghost predicate Held(a: seq<Word>, b: seq<Block>, c: nat)
    requires |a| == NADDRS
  {
    exists j :: 0 <= j < SLOTS && Slot(a, b, j) == c
  }

  lemma OutgrownNone(sb: Super, a: seq<Word>, b: seq<Block>)
    requires Tree(sb, a, b)
    ensures Outgrown(sb, a, b, a, b)
  {
  }

  lemma OutgrownTwice(sb: Super, a0: seq<Word>, b0: seq<Block>, a1: seq<Word>, b1: seq<Block>, a2: seq<Word>, b2: seq<Block>)
    requires Outgrown(sb, a0, b0, a1, b1) && Outgrown(sb, a1, b1, a2, b2)
    ensures Outgrown(sb, a0, b0, a2, b2)
  {
    hide Slot, Used, Tree;
    OutgrownMeans(sb, a0, b0, a1, b1);
    OutgrownMeans(sb, a1, b1, a2, b2);
    forall c | sb.lo <= c < sb.size && Used(sb, b0, c) && !Held(a0, b0, c) ensures b2[c] == b0[c] {
      forall j | 0 <= j < SLOTS ensures Slot(a1, b1, j) != c {
        assert Slot(a0, b0, j) != c;
      }
    }
  }

  lemma OutgrownMeans(sb: Super, a0: seq<Word>, b0: seq<Block>, a1: seq<Word>, b1: seq<Block>)
    requires Outgrown(sb, a0, b0, a1, b1)
    ensures Sized(sb, a0, b0) && Sized(sb, a1, b1)
    ensures forall j :: 0 <= j < SLOTS ==> Slot(a1, b1, j) < sb.size
  {
    hide Slot, Used;
  }

  /** One round: bmap, and a store into the block it returns. */
  lemma OutgrownRound(sb: Super, a1: seq<Word>, b1: seq<Block>, a2: seq<Word>, b2: seq<Block>, k: nat, x: Block)
    requires Grown(sb, a1, b1, a2, b2, k) && k < SLOTS && k != ND && Slot(a2, b2, k) != 0
    ensures Slot(a2, b2, k) < sb.size == |b2| && Outgrown(sb, a1, b1, a2, b2[Slot(a2, b2, k) := x])
  {
    hide Slot, Used;
    GrownTree(sb, a1, b1, a2, b2, k);
    TreeMeans(sb, a1, b1, ND);
    TreeMeans(sb, a2, b2, k);
    Rewritten(sb, a2, b2, k, x);
    var b3 := b2[Slot(a2, b2, k) := x];
    forall c | sb.lo <= c < sb.size && Used(sb, b1, c) && !Held(a1, b1, c) ensures b3[c] == b1[c] {
      assert c != Slot(a1, b1, ND) && c != Slot(a1, b1, k);
    }
  }

  lemma OutgrownInode(sb: Super, a: seq<Word>, b1: seq<Block>, b2: seq<Block>)
    requires Tree(sb, a, b1) && SameFrom(sb.bmapstart, b1, b2)
    ensures Outgrown(sb, a, b1, a, b2)
  {
    hide Slot, Used, Tree;
    TreeMeans(sb, a, b1, ND);
    BitsFrom(sb, b1, b2);
    forall k | 0 <= k < SLOTS ensures Slot(a, b2, k) == Slot(a, b1, k) {
      InodeSlot(sb, a, b1, b2, k);
    }
    SameTree(sb, a, b1, b2);
  }

  /** How many blocks a round at off may take: none for its data when the file has bytes in that block. */
  function Fresh(off: nat, size: nat): nat {
    if off < size || off % BSIZE != 0 then 0 else 1
  }

  function Rootless(r: set<nat>): nat {
    if r == {} then 1 else 0
  }

  /** What one round of writei, or several, may take of the free blocks and of the log. */
  ghost predicate Spent(sb: Super, a0: seq<Word>, b0: seq<Block>, a1: seq<Word>, b1: seq<Block>, n: nat)
    requires Sized(sb, a0, b0) && Sized(sb, a1, b1)
  {
    Root(a0) <= Root(a1) && Unfilled(sb, b0) <= Unfilled(sb, b1) + n + Rootless(Root(a0)) - Rootless(Root(a1))
  }

  /** One round of writei: s goes into the block at off, the file being size bytes long so far. */
  method WriteBlock(fs: Fs, ip: Inode, off: nat, s: seq<Byte>, ghost size: nat) returns (ok: bool, ghost addr: nat, ghost more: set<nat>)
    requires fs.Valid() && |ip.addrs| == NADDRS && Tree(fs.sb, ip.addrs, fs.blocks) && size <= LIMIT && NoHoles(ip.addrs, fs.blocks, size)
    requires off <= size && 0 < |s| && off % BSIZE + |s| <= BSIZE && off + |s| <= LIMIT
    modifies fs`blocks, fs`logged, ip`addrs
    ensures |fs.blocks| == fs.sb.size && (!ok ==> fs.Stuck()) && |ip.addrs| == NADDRS
    ensures !ok && fs.outstanding >= 1 && |old(fs.logged)| + 6 <= ROOM ==>
      FreeBlocks(fs.sb, fs.blocks) == {} && old(Unfilled(fs.sb, fs.blocks)) < Fresh(off, size) + Rootless(old(Root(ip.addrs)))
    ensures ok ==> fs.Valid() && Outgrown(fs.sb, old(ip.addrs), old(fs.blocks), ip.addrs, fs.blocks)
    ensures ok ==> Spent(fs.sb, old(ip.addrs), old(fs.blocks), ip.addrs, fs.blocks, Fresh(off, size))
    ensures ok ==> Tree(fs.sb, ip.addrs, fs.blocks) && NoHoles(ip.addrs, fs.blocks, Max(size, off + |s|))
    ensures ok ==> Content(ip.addrs, fs.blocks, Max(size, off + |s|)) == Splice(old(Content(ip.addrs, fs.blocks, size)), off, s)
    ensures ok ==> Logs(old(fs.blocks), old(fs.logged), fs.blocks, fs.logged) && SameBelow(fs.sb.bmapstart, old(fs.blocks), fs.blocks)
    ensures ok && off < size ==> ip.addrs == old(ip.addrs)
    ensures ok ==> fs.logged <= old(fs.logged) + more + {addr} + Root(ip.addrs) && Root(old(ip.addrs)) <= Root(ip.addrs)
    ensures ok ==> |more| <= Fresh(off, size) + (if Root(old(ip.addrs)) == {} != Root(ip.addrs) then 1 else 0)
  {
    hide Used, Slot, Grown, Tree, NoHoles, Content, Splice, Overwrite, Root, Logs, SameBelow, Mapped, Outgrown, Need, Spent, Unfilled, FreeBlocks, GetWord;
    ghost var a1, b1, l1 := ip.addrs, fs.blocks, fs.logged;
    NoHolesAt(a1, b1, size, off);
    NeedBound(a1, b1, SlotOf(off / BSIZE));
    var bn := off / BSIZE;
    var bno;
    bno, ok, more := Bmap(fs, ip, bn);
    addr := bno;
    if ok {
      ghost var b2, l2 := fs.blocks, fs.logged;
      MappedMeans(fs.sb, a1, b1, l1, ip.addrs, b2, l2, SlotOf(bn), bno, more);
      Round(fs.sb, a1, b1, ip.addrs, b2, size, off, s);
      RootSize(ip.addrs);
      UnionSize({addr}, Root(ip.addrs));
      GrewBy(l1, l2, more, {addr} + Root(ip.addrs));
      fs.blocks := fs.blocks[bno := Overwrite(fs.blocks[bno], off % BSIZE, s)];
      DataLogged(fs.sb, b1, l1, b2, l2, fs.blocks, bno);
      OutgrownRound(fs.sb, a1, b1, ip.addrs, b2, SlotOf(bn), fs.blocks[bno]);
      SpentRound(fs.sb, a1, b1, ip.addrs, b2, fs.blocks, SlotOf(bn), Fresh(off, size));
      ok := fs.LogWrite(bno);
    }
  }

  lemma NeedBound(a: seq<Word>, b: seq<Block>, k: nat)
    requires |a| == NADDRS && k < SLOTS
    ensures Need(a, b, k) <= (if Slot(a, b, k) == 0 then 1 else 0) + Rootless(Root(a))
  {
  }

  lemma MappedMeans(sb: Super, a0: seq<Word>, b0: seq<Block>, l0: set<nat>, a1: seq<Word>, b1: seq<Block>, l1: set<nat>,
                    k: nat, addr: nat, maps: set<nat>)
    requires |a0| == NADDRS && k < SLOTS && Mapped(sb, a0, b0, l0, a1, b1, l1, k, addr, maps)
    ensures Grown(sb, a0, b0, a1, b1, k) && Sized(sb, a0, b0) && Sized(sb, a1, b1) && addr == Slot(a1, b1, k) != 0
    ensures l1 <= l0 + maps + {addr} + Root(a1) && Root(a0) <= Root(a1)
    ensures |maps| <= (if Slot(a0, b0, k) == 0 then 1 else 0) + (if Root(a0) == {} != Root(a1) then 1 else 0)
    ensures Logs(b0, l0, b1, l1) && SameBelow(sb.bmapstart, b0, b1) && Unfilled(sb, b0) <= Unfilled(sb, b1) + Need(a0, b0, k)
  {
    hide Used, Slot;
  }

  lemma SpentRound(sb: Super, a1: seq<Word>, b1: seq<Block>, a2: seq<Word>, b2: seq<Block>, b3: seq<Block>, k: nat, n: nat)
    requires Sized(sb, a1, b1) && Sized(sb, a2, b2) && |b3| == sb.size && k < SLOTS && Slot(a2, b2, k) != 0
    requires Unfilled(sb, b1) <= Unfilled(sb, b2) + Need(a1, b1, k) && Root(a1) <= Root(a2) && (if Slot(a1, b1, k) == 0 then 1 else 0) <= n
    requires forall c :: 0 <= c < sb.size ==> Used(sb, b3, c) == Used(sb, b2, c)
    ensures Spent(sb, a1, b1, a2, b3, n)
  {
    hide Used, FreeBlocks;
    SameFree(sb, b2, b3);
  }

  lemma DataLogged(sb: Super, b1: seq<Block>, l1: set<nat>, b2: seq<Block>, l2: set<nat>, b3: seq<Block>, c: nat)
    requires Logs(b1, l1, b2, l2) && SameBelow(sb.bmapstart, b1, b2) && sb.Ok() && sb.lo <= c < |b2| == |b3| && b3 == b2[c := b3[c]]
    ensures Logs(b1, l1, b3, l2 + {c}) && SameBelow(sb.bmapstart, b1, b3)
  {
  }

  /** Rounds so far: a later one starts at a block boundary. */
  lemma RoundsAt(offset: nat, tot: nat)
    ensures Rounds(offset, tot) == 0 <==> tot == 0
  {
    if tot > 0 { assert (offset + tot - 1) / BSIZE >= offset / BSIZE; }
  }

  /** With so many blocks free nothing that a write of n bytes from offset on does is refused. */
  ghost function Enough(a: seq<Word>, offset: nat, n: nat): nat
    requires |a| == NADDRS
  {
    News(offset, Rounds(offset, n)) + Rootless(Root(a))
  }

  /** The log has room for a write of n bytes from offset on. */
  ghost predicate Roomy(fs: Fs, offset: nat, n: nat)
    reads fs
  {
    fs.outstanding >= 1 && |fs.logged| + Rounds(offset, n) + News(offset, Rounds(offset, n)) + 9 <= ROOM
  }

  /** writei of project_01 on a regular file. */
  method Writei(fs: Fs, ip: Inode, src: seq<Byte>, offset: nat, n: nat) returns (r: int, ok: bool)
    requires Sound(fs, ip) && offset < U32 && n < U32 && n <= |src|
    modifies fs`blocks, fs`logged, ip`addrs, ip`size
    ensures |fs.blocks| == fs.sb.size && (!ok ==> fs.Stuck())
    // with room in the log only a full disk makes it panic
    ensures !ok && old(Roomy(fs, offset, n)) ==> FreeBlocks(fs.sb, fs.blocks) == {} && old(Unfilled(fs.sb, fs.blocks)) < old(Enough(ip.addrs, offset, n))
    ensures ok ==> Sound(fs, ip)
    ensures ok ==> (r == -1 <==> offset > old(ip.size) || offset + n > 71680) && (r == -1 || r == n)
    ensures ok && r == -1 ==> fs.blocks == old(fs.blocks) && ip.addrs == old(ip.addrs) && ip.size == old(ip.size) && fs.logged == old(fs.logged)
    ensures ok && r != -1 ==> ip.size == (if n == 0 then old(ip.size) else Max(old(ip.size), offset + n))
    ensures ok && r != -1 ==> Bytes(fs, ip) == Splice(old(Bytes(fs, ip)), offset, src[..n])
    // what other files hold stays
    ensures ok ==> Outgrown(fs.sb, old(ip.addrs), old(fs.blocks), ip.addrs, fs.blocks)
    // every block that changes is logged, and the on-disk inode whenever an address or the size changes
    ensures ok ==> Logs(old(fs.blocks), old(fs.logged), fs.blocks, fs.logged)
    ensures ok && old(fs.Filed(ip)) ==> fs.Filed(ip)
    ensures ok && (ip.addrs != old(ip.addrs) || ip.size != old(ip.size)) ==> ip.iblock in fs.logged
    ensures ok && r != -1 ==> |fs.logged - old(fs.logged)| <= Rounds(offset, n) + News(offset, Rounds(offset, n)) + 3
  {
    hide Used, Slot, Grown, Tree, NoHoles, Content, Splice, Overwrite, Within, Root, Rounds, News, Fs.Stuck, SlotOf, Logs, SameBelow, Stored, FreeBlocks, Outgrown, Unfilled, Enough;
    ok := true;
    NoHolesMeans(ip.addrs, fs.blocks, ip.size);
    NothingYet(fs.sb, fs.blocks, fs.logged);
    OutgrownNone(fs.sb, ip.addrs, fs.blocks);
    if offset > ip.size || (offset + n) % U32 < offset {
      return -1, ok;
    }
    if offset + n > LIMIT {
      return -1, ok;
    }
    ghost var a0, b0, base := ip.addrs, fs.blocks, fs.logged;
    ok := WriteBlocks(fs, ip, src, offset, n);
    r := n;
    if ok {
      ghost var b2, l2 := fs.blocks, fs.logged;
      SameAt(fs.sb.bmapstart, b0, b2, ip.iblock);
      RootSize(ip.addrs);
      WithinSize(l2, base, Root(a0), Root(ip.addrs), offset, n, n);
      if n > 0 && offset + n > ip.size {
        ok := SaveSize(fs, ip, offset + n);
        if ok {
          LogsTwice(b0, base, b2, l2, fs.blocks, fs.logged);
          OutgrownTwice(fs.sb, a0, b0, ip.addrs, b2, ip.addrs, fs.blocks);
        }
      }
      WithinAll(l2, fs.logged, base, Root(a0), Root(ip.addrs), offset, n, ip.iblock);
    }
  }

  /** The loop of writei. */
  method WriteBlocks(fs: Fs, ip: Inode, src: seq<Byte>, offset: nat, n: nat) returns (ok: bool)
    requires Sound(fs, ip) && n <= |src| && offset <= ip.size && offset + n <= LIMIT
    modifies fs`blocks, fs`logged, ip`addrs
    ensures |fs.blocks| == fs.sb.size && (!ok ==> fs.Stuck()) && |ip.addrs| == NADDRS
    ensures !ok && old(Roomy(fs, offset, n)) ==> FreeBlocks(fs.sb, fs.blocks) == {} && old(Unfilled(fs.sb, fs.blocks)) < old(Enough(ip.addrs, offset, n))
    ensures ok ==> fs.Valid() && Tree(fs.sb, ip.addrs, fs.blocks) && Max(ip.size, offset + n) <= LIMIT && NoHoles(ip.addrs, fs.blocks, Max(ip.size, offset + n))
    ensures ok ==> Content(ip.addrs, fs.blocks, Max(ip.size, offset + n)) == Splice(old(Bytes(fs, ip)), offset, src[..n])
    ensures ok && offset + n <= ip.size ==> ip.addrs == old(ip.addrs)
    ensures ok ==> Logs(old(fs.blocks), old(fs.logged), fs.blocks, fs.logged) && SameBelow(fs.sb.bmapstart, old(fs.blocks), fs.blocks)
    ensures ok ==> Outgrown(fs.sb, old(ip.addrs), old(fs.blocks), ip.addrs, fs.blocks)
    ensures ok ==> Within(fs.logged, old(fs.logged), Root(old(ip.addrs)), Root(ip.addrs), offset, n)
  {
    hide Used, Slot, Grown, Tree, NoHoles, Content, Splice, Overwrite, Within, Root, Rounds, News, Fs.Stuck, SlotOf, Logs, SameBelow, Stored, FreeBlocks, Outgrown, Unfilled, Spent, Enough, Rootless, Fresh;
    ok := true;
    NoHolesMeans(ip.addrs, fs.blocks, ip.size);
    NothingYet(fs.sb, fs.blocks, fs.logged);
    OutgrownNone(fs.sb, ip.addrs, fs.blocks);
    ghost var c0, size0, a0, b0, base := Bytes(fs, ip), ip.size, ip.addrs, fs.blocks, fs.logged;
    SpliceNone(c0, offset, src);
    WithinNone(base, Root(a0), offset);
    SpentNone(fs.sb, a0, b0, offset);
    var tot, off := 0, offset;
    while tot < n
      invariant 0 <= tot <= n && off == offset + tot && ip.size == size0 && (tot == 0 || tot == n || off % BSIZE == 0)
      invariant fs.Valid() && Tree(fs.sb, ip.addrs, fs.blocks)
      invariant |ip.addrs| == NADDRS && Max(size0, off) <= LIMIT && NoHoles(ip.addrs, fs.blocks, Max(size0, off))
      invariant Content(ip.addrs, fs.blocks, Max(size0, off)) == Splice(c0, offset, src[..tot])
      invariant off <= size0 ==> ip.addrs == a0
      invariant Logs(b0, base, fs.blocks, fs.logged) && SameBelow(fs.sb.bmapstart, b0, fs.blocks)
      invariant Outgrown(fs.sb, a0, b0, ip.addrs, fs.blocks)
      invariant Within(fs.logged, base, Root(a0), Root(ip.addrs), offset, tot)
      invariant Sized(fs.sb, a0, b0) && Spent(fs.sb, a0, b0, ip.addrs, fs.blocks, News(offset, Rounds(offset, tot)))
    {
      ghost var a1, b1, l1 := ip.addrs, fs.blocks, fs.logged;
      var m := Min(n - tot, BSIZE - off % BSIZE);
      ghost var addr, more;
      RootSize(ip.addrs);
      WithinSize(l1, base, Root(a0), Root(a1), offset, tot, n);
      FreshRound(offset, tot, m, n, Max(size0, off));
      ok, addr, more := WriteBlock(fs, ip, off, src[tot..tot + m], Max(size0, off));
      if !ok {
        NotEnough(fs.sb, a0, b0, a1, b1, offset, tot, m, n, Fresh(off, Max(size0, off)));
        return;
      }
      SpliceTwice(c0, offset, src, tot, m);
      MoreLogged(fs.sb, b0, base, b1, l1, fs.blocks, fs.logged);
      OutgrownTwice(fs.sb, a0, b0, a1, b1, ip.addrs, fs.blocks);
      SpentMore(fs.sb, a0, b0, a1, b1, ip.addrs, fs.blocks, offset, tot, m, Fresh(off, Max(size0, off)));
      WithinRound(l1, fs.logged, base, Root(a0), Root(a1), Root(ip.addrs), offset, tot, m, addr, more);
      tot, off := tot + m, off + m;
    }
  }

  lemma SpentNone(sb: Super, a: seq<Word>, b: seq<Block>, offset: nat)
    requires Sized(sb, a, b)
    ensures Spent(sb, a, b, a, b, News(offset, Rounds(offset, 0)))
  {
  }

  lemma FreshRound(offset: nat, tot: nat, m: nat, n: nat, size: nat)
    requires tot == 0 || (offset + tot) % BSIZE == 0
    requires 0 < m <= BSIZE - (offset + tot) % BSIZE && tot + m <= n && offset + tot <= size
    ensures Fresh(offset + tot, size) <= (if tot == 0 && offset % BSIZE != 0 then 0 else 1)
    ensures News(offset, Rounds(offset, tot)) + Fresh(offset + tot, size) <= News(offset, Rounds(offset, tot + m)) <= News(offset, Rounds(offset, n))
  {
    hide Rounds;
    NextRound(offset, tot, m);
    RoundsAt(offset, tot);
    RoundsMore(offset, tot + m, n);
  }

  lemma NotEnough(sb: Super, a0: seq<Word>, b0: seq<Block>, a1: seq<Word>, b1: seq<Block>, offset: nat, tot: nat, m: nat, n: nat, f: nat)
    requires Sized(sb, a0, b0) && Sized(sb, a1, b1) && Spent(sb, a0, b0, a1, b1, News(offset, Rounds(offset, tot)))
    requires News(offset, Rounds(offset, tot)) + f <= News(offset, Rounds(offset, n))
    ensures Unfilled(sb, b1) < f + Rootless(Root(a1)) ==> Unfilled(sb, b0) < Enough(a0, offset, n)
  {
    hide Unfilled, Rounds, News, Root;
  }

  lemma SpentMore(sb: Super, a0: seq<Word>, b0: seq<Block>, a1: seq<Word>, b1: seq<Block>, a2: seq<Word>, b2: seq<Block>,
                  offset: nat, tot: nat, m: nat, f: nat)
    requires Sized(sb, a0, b0) && Sized(sb, a1, b1) && Sized(sb, a2, b2)
    requires Spent(sb, a0, b0, a1, b1, News(offset, Rounds(offset, tot))) && Spent(sb, a1, b1, a2, b2, f)
    requires News(offset, Rounds(offset, tot)) + f <= News(offset, Rounds(offset, tot + m))
    ensures Spent(sb, a0, b0, a2, b2, News(offset, Rounds(offset, tot + m)))
  {
    hide Unfilled, Rounds, News, Root;
  }

  /** The end of writei when the file has grown: its size is set and the inode saved. */
  method SaveSize(fs: Fs, ip: Inode, off: Word) returns (ok: bool)
    requires fs.Valid() && fs.Homed(ip) && Tree(fs.sb, ip.addrs, fs.blocks) && NoHoles(ip.addrs, fs.blocks, off) && off <= LIMIT
    modifies fs`blocks, fs`logged, ip`size
    ensures ip.size == off && Sound(fs, ip) && fs.Filed(ip) && (!ok ==> fs.Stuck())
    ensures ok <==> fs.outstanding >= 1 && |old(fs.logged)| < ROOM
    ensures Bytes(fs, ip) == old(Content(ip.addrs, fs.blocks, off))
    ensures fs.logged == old(fs.logged) + if ok then {ip.iblock} else {}
    ensures ok ==> Logs(old(fs.blocks), old(fs.logged), fs.blocks, fs.logged)
    ensures Outgrown(fs.sb, ip.addrs, old(fs.blocks), ip.addrs, fs.blocks)
  {
    hide Used, Tree, NoHoles, Content, Stored, Logs, Outgrown;
    ghost var b1, l1 := fs.blocks, fs.logged;
    ip.size := off;
    ok := fs.Iupdate(ip);
    InodeBlock(fs.sb, ip.addrs, b1, fs.blocks, off);
    OutgrownInode(fs.sb, ip.addrs, b1, fs.blocks);
    LogsOne(b1, l1, ip.iblock, fs.blocks[ip.iblock]);
  }

  /** Blocks before the bitmap, an inode block say, hold no slot, no bit and no byte of a file. */
  lemma InodeBlock(sb: Super, a: seq<Word>, b1: seq<Block>, b2: seq<Block>, size: nat)
    requires Tree(sb, a, b1) && SameFrom(sb.bmapstart, b1, b2) && size <= LIMIT
    ensures sb.bmapstart < sb.size && Tree(sb, a, b2) && Content(a, b2, size) == Content(a, b1, size)
    ensures NoHoles(a, b2, size) <==> NoHoles(a, b1, size)
  {
    hide Slot, Used, Tree;
    TreeMeans(sb, a, b1, ND);
    BitsFrom(sb, b1, b2);
    forall k | 0 <= k < SLOTS ensures Slot(a, b2, k) == Slot(a, b1, k) {
      InodeSlot(sb, a, b1, b2, k);
    }
    SameTree(sb, a, b1, b2);
    forall j | 0 <= j < size ensures ByteAt(a, b2, j) == ByteAt(a, b1, j) {
      InodeByte(sb, a, b1, b2, j);
    }
  }

  lemma InodeSlot(sb: Super, a: seq<Word>, b1: seq<Block>, b2: seq<Block>, k: nat)
    requires Tree(sb, a, b1) && SameFrom(sb.bmapstart, b1, b2) && k < SLOTS
    ensures Slot(a, b2, k) == Slot(a, b1, k)
  {
    hide GetWord, Used;
    assert Slot(a, b1, ND) == a[ND];
  }

  lemma SameTree(sb: Super, a: seq<Word>, b1: seq<Block>, b2: seq<Block>)
    requires Tree(sb, a, b1) && |b2| == |b1|
    requires forall k :: 0 <= k < SLOTS ==> Slot(a, b2, k) == Slot(a, b1, k)
    requires forall c :: 0 <= c < sb.size ==> Used(sb, b2, c) == Used(sb, b1, c)
    ensures Tree(sb, a, b2)
  {
    hide Slot, Used;
  }

  lemma InodeByte(sb: Super, a: seq<Word>, b1: seq<Block>, b2: seq<Block>, j: nat)
    requires Tree(sb, a, b1) && SameFrom(sb.bmapstart, b1, b2) && j < LIMIT
    requires forall k :: 0 <= k < SLOTS ==> Slot(a, b2, k) == Slot(a, b1, k)
    ensures ByteAt(a, b2, j) == ByteAt(a, b1, j)
  {
    hide Slot, Used;
    assert SlotOf(j / BSIZE) < SLOTS;
  }

  lemma StaysSaved(b1: seq<Block>, l1: set<nat>, b2: seq<Block>, l2: set<nat>, committed: seq<Block>)
    requires Logs(b1, l1, b2, l2)
    ensures Saved(b1, committed, l1) ==> Saved(b2, committed, l2)
  {
  }

  lemma MoreLogged(sb: Super, b1: seq<Block>, l1: set<nat>, b2: seq<Block>, l2: set<nat>, b3: seq<Block>, l3: set<nat>)
    requires Logs(b1, l1, b2, l2) && SameBelow(sb.bmapstart, b1, b2) && Logs(b2, l2, b3, l3) && SameBelow(sb.bmapstart, b2, b3)
    ensures Logs(b1, l1, b3, l3) && SameBelow(sb.bmapstart, b1, b3)
  {
  }

  lemma SameAt(n: nat, b1: seq<Block>, b2: seq<Block>, i: nat)
    requires SameBelow(n, b1, b2) && i < n && i < |b1|
    ensures |b2| == |b1| && b2[i] == b1[i]
  {
  }

  lemma NoHolesMeans(a: seq<Word>, b: seq<Block>, size: nat)
    requires |a| == NADDRS && NoHoles(a, b, size)
    ensures size <= LIMIT
  {
  }

  lemma NoHolesAt(a: seq<Word>, b: seq<Block>, size: nat, off: nat)
    requires |a| == NADDRS && NoHoles(a, b, size) && off <= size && off < LIMIT
    ensures size <= LIMIT && off / BSIZE < MAXBLOCKS
    ensures off < size || off % BSIZE != 0 ==> Slot(a, b, SlotOf(off / BSIZE)) != 0
  {
  }

  lemma RootSize(a: seq<Word>)
    requires |a| == NADDRS
    ensures |Root(a)| <= 1
  {
  }

  /* ---------- filewrite, one transaction after the other ---------- */

  class File {
    var off: nat
    const ip: Inode
    const writable: bool

    constructor (ip: Inode, writable: bool)
      ensures this.ip == ip && this.writable == writable && off == 0
    {
      this.ip, this.writable, off := ip, writable, 0;
    }
  }

  lemma NextChunk(i: nat)
    requires i % MAXCHUNK == 0
    ensures (i + MAXCHUNK) % MAXCHUNK == 0
  {
  }

  /** The log is empty while no operation runs. */
  ghost predicate Calm(fs: Fs)
    reads fs
  {
    |fs.committed| == |fs.blocks| && (fs.outstanding == 0 ==> fs.logged == {})
  }

  /** The test of begin_op: the log has room for all operations that are running and one more. */
  predicate Open(fs: Fs)
    reads fs
  {
    |fs.logged| + (fs.outstanding + 1) * Commit.MAXOPBLOCKS <= Commit.LOGSIZE
  }

  /** end_op: the last operation to end commits. */
  method EndOp(fs: Fs)
    requires fs.outstanding >= 1 && |fs.committed| == |fs.blocks|
    modifies fs`outstanding, fs`logged, fs`committed
    ensures fs.outstanding == old(fs.outstanding) - 1 && Calm(fs)
    ensures if fs.outstanding == 0 then fs.logged == {} && fs.committed == Merged(old(fs.committed), fs.blocks, old(fs.logged))
            else fs.logged == old(fs.logged) && fs.committed == old(fs.committed)
    // a commit takes over the blocks logged and no others
    ensures fs.outstanding == 0 ==> forall c :: 0 <= c < |fs.blocks| ==>
      fs.committed[c] == if c in old(fs.logged) then fs.blocks[c] else old(fs.committed)[c]
    ensures old(fs.Durable()) ==> fs.Durable()
  {
    if fs.Durable() { MergedAll(fs.committed, fs.blocks, fs.logged); }
    fs.outstanding := fs.outstanding - 1;
    if fs.outstanding == 0 {
      fs.committed := Merged(fs.committed, fs.blocks, fs.logged);
      fs.logged := {};
    }
  }

  /** begin_op. While the log is too full it sleeps, and the other operations end one after the other. */
  method BeginOp(fs: Fs)
    requires Calm(fs)
    modifies fs`outstanding, fs`logged, fs`committed
    ensures 1 <= fs.outstanding <= old(fs.outstanding) + 1 && |fs.committed| == |fs.blocks|
    // it goes on only with room for ten blocks of each running operation, its own included, and then at once
    ensures |fs.logged| <= 10 && |fs.logged| + fs.outstanding * 10 <= 30
    ensures if old(|fs.logged| + (fs.outstanding + 1) * 10 <= 30)
            then fs.outstanding == old(fs.outstanding) + 1 && fs.committed == old(fs.committed) && fs.logged == old(fs.logged)
            else fs.outstanding <= old(fs.outstanding)
    ensures fs.logged == old(fs.logged) || fs.logged == {}
    ensures old(fs.Durable()) ==> fs.Durable()
  {
    hide Merged, Saved;
    while !Open(fs)
      invariant Calm(fs) && fs.outstanding <= old(fs.outstanding) && (fs.logged == old(fs.logged) || fs.logged == {})
      invariant old(Open(fs)) ==> fs.outstanding == old(fs.outstanding) && fs.committed == old(fs.committed) && fs.logged == old(fs.logged)
      invariant !old(Open(fs)) ==> fs.outstanding < old(fs.outstanding) || (fs.outstanding == old(fs.outstanding) && fs.logged == old(fs.logged))
      invariant old(fs.Durable()) ==> fs.Durable()
      decreases fs.outstanding
    {
      EndOp(fs);
    }
    fs.outstanding := fs.outstanding + 1;
  }

  /** One transaction of filewrite, begin_op to end_op; begun is the log when begin_op returns, ended when end_op is
      called. It never logs more blocks than begin_op reserved. */
  method WriteOp(fs: Fs, f: File, src: seq<Byte>, n1: nat) returns (r: int, ok: bool, ghost begun: set<nat>, ghost ended: set<nat>)
    requires Sound(fs, f.ip) && Calm(fs) && f.off < U32 && n1 <= |src| && n1 <= 1536
    modifies fs, f.ip, f
    ensures |fs.blocks| == fs.sb.size && (ok ==> fs.outstanding <= old(fs.outstanding))
    ensures !ok ==> (forall c :: 0 <= c < fs.sb.size ==> Used(fs.sb, fs.blocks, c)) && old(Unfilled(fs.sb, fs.blocks)) < old(Enough(f.ip.addrs, f.off, n1))
    ensures ok ==> Outgrown(fs.sb, old(f.ip.addrs), old(fs.blocks), f.ip.addrs, fs.blocks)
    ensures ok ==> Sound(fs, f.ip) && Calm(fs) && (old(fs.Filed(f.ip)) ==> fs.Filed(f.ip))
    ensures ok ==> (r == -1 <==> old(f.off) > old(f.ip.size) || old(f.off) + n1 > 71680) && (r == -1 || r == n1)
    ensures ok && r == -1 ==> f.off == old(f.off) && fs.blocks == old(fs.blocks) && Bytes(fs, f.ip) == old(Bytes(fs, f.ip))
    ensures ok && r != -1 ==> f.off == old(f.off) + n1 && f.ip.size == Max(old(f.ip.size), f.off)
    ensures ok && r != -1 ==> Bytes(fs, f.ip) == Splice(old(Bytes(fs, f.ip)), old(f.off), src[..n1])
    // every block that changes is logged, and the next commit saves it with all that it had to save before
    ensures ok ==> (begun == old(fs.logged) || begun == {}) && Logs(old(fs.blocks), begun, fs.blocks, ended)
    ensures ok ==> |ended - begun| <= 10 && (fs.logged == ended || (fs.outstanding == 0 && fs.logged == {}))
    ensures ok && old(fs.Durable()) ==> fs.Durable()
  {
    hide Used, Slot, Tree, NoHoles, Content, Splice, Rounds, News, Logs, Saved, FreeBlocks, Stored, Merged, Outgrown, Unfilled, Enough;
    BeginOp(fs);
    begun := fs.logged;
    ChunkBound(f.off, n1);
    ghost var b1 := fs.blocks;
    LogsNone(b1, begun);
    assert begun - begun == {};
    r, ok := Writei(fs, f.ip, src, f.off, n1);
    SomeFree(fs.sb, fs.blocks);
    ended := fs.logged;
    if ok && r > 0 {
      f.off := f.off + r;
    }
    if ok {
      StaysSaved(b1, begun, fs.blocks, ended, fs.committed);
      EndOp(fs);
    }
  }

  /** The disk blocks b hold a sound file with these bytes, its inode at place k of block i. */
  ghost predicate OnDisk(sb: Super, b: seq<Block>, i: nat, k: nat, bytes: seq<Byte>) {
    sb.Ok() && |b| == sb.size && i < sb.bmapstart && k < IPB && exists a: seq<Word>, size: Word :: DiskFile(sb, b, i, k, a, size, bytes)
  }

  ghost predicate DiskFile(sb: Super, b: seq<Block>, i: nat, k: nat, a: seq<Word>, size: Word, bytes: seq<Byte>)
    requires k < IPB
  {
    && |a| == NADDRS && i < |b| && Files.Stored(b[i], k, size, a) && Tree(sb, a, b) && NoHoles(a, b, size)
    && size <= LIMIT && Content(a, b, size) == bytes
  }

  lemma FiledOnDisk(fs: Fs, ip: Inode)
    requires Sound(fs, ip) && fs.Filed(ip)
    ensures OnDisk(fs.sb, fs.blocks, ip.iblock, ip.index, Bytes(fs, ip))
  {
    hide Tree, NoHoles, Content, Stored;
    NoHolesMeans(ip.addrs, fs.blocks, ip.size);
    assert DiskFile(fs.sb, fs.blocks, ip.iblock, ip.index, ip.addrs, ip.size, Bytes(fs, ip));
  }

  /** What is on the disk after each of the transactions in hist: the bytes c0 with more and more of src spliced in,
      a chunk at a time, up to total bytes. */
  ghost predicate Chunks(sb: Super, hist: seq<seq<Block>>, i: nat, k: nat, c0: seq<Byte>, off: nat, src: seq<Byte>, total: nat) {
    && total <= |src| && off <= |c0|
    && forall t :: 0 <= t < |hist| ==> OnDisk(sb, hist[t], i, k, Splice(c0, off, src[..Min(t * MAXCHUNK, total)]))
  }

  lemma ChunksMore(sb: Super, hist: seq<seq<Block>>, i: nat, k: nat, c0: seq<Byte>, off: nat, src: seq<Byte>, total: nat, total': nat, b: seq<Block>)
    requires Chunks(sb, hist, i, k, c0, off, src, total) && total <= total' <= |src|
    requires total == (|hist| - 1) * MAXCHUNK && total' <= |hist| * MAXCHUNK
    requires OnDisk(sb, b, i, k, Splice(c0, off, src[..total']))
    ensures Chunks(sb, hist + [b], i, k, c0, off, src, total')
  {
    hide OnDisk, Splice;
    forall t | 0 <= t < |hist + [b]| ensures OnDisk(sb, (hist + [b])[t], i, k, Splice(c0, off, src[..Min(t * MAXCHUNK, total')])) {
      if t < |hist| { assert Min(t * MAXCHUNK, total) == t * MAXCHUNK; }
    }
  }

  /** filewrite on a regular file: r is its result; !ok stands for a panic; hist has the blocks as its transactions found
      and left them. */
  method FileWrite(fs: Fs, f: File, src: seq<Byte>, n: int) returns (r: int, ok: bool, ghost hist: seq<seq<Block>>)
    requires Sound(fs, f.ip) && Calm(fs) && f.off < U32 && n <= |src| && n < 0x8000_0000
    modifies fs, f.ip, f
    ensures |fs.blocks| == fs.sb.size && (ok ==> fs.outstanding <= old(fs.outstanding))
    // the only panic left is that of balloc on a full disk: "short filewrite" never happens
    ensures !ok ==> f.writable && forall c :: 0 <= c < fs.sb.size ==> Used(fs.sb, fs.blocks, c)
    ensures ok ==> Sound(fs, f.ip) && Calm(fs)
    // n is returned exactly when all of it fits
    ensures ok ==> r == if f.writable && (n == 0 || (n > 0 && old(f.off) <= old(f.ip.size) && old(f.off) + n <= 71680)) then n else -1
    ensures ok && old(f.off) > old(f.ip.size) ==> f.off == old(f.off) && Bytes(fs, f.ip) == old(Bytes(fs, f.ip))
    // what the chunks wrote together is one splice, of all the bytes when n is returned, of whole chunks otherwise
    ensures ok && old(f.off) <= old(f.ip.size) ==>
      && old(f.off) <= f.off && f.off - old(f.off) <= Max(n, 0)
      && Bytes(fs, f.ip) == Splice(old(Bytes(fs, f.ip)), old(f.off), src[..f.off - old(f.off)])
    ensures ok && r == n && n > 0 ==> f.off == old(f.off) + n
    ensures ok && f.writable && r == -1 && n > 0 && old(f.off) <= old(f.ip.size) ==>
      (f.off - old(f.off)) % 1536 == 0 && f.off <= 71680 < f.off + 1536
    // so whatever the next commit had to save it still saves, with all that was written
    ensures ok ==> (old(fs.Durable()) ==> fs.Durable())
    // between two transactions the disk blocks hold a sound file, with the chunks written so far
    ensures ok && old(fs.Filed(f.ip)) && old(f.off) <= old(f.ip.size) ==>
      && |hist| >= 1 && hist[0] == old(fs.blocks) && hist[|hist| - 1] == fs.blocks
      && Chunks(fs.sb, hist, f.ip.iblock, f.ip.index, old(Bytes(fs, f.ip)), old(f.off), src, f.off - old(f.off))
  {
    hide Used, Slot, Tree, NoHoles, Content, Splice, Rounds, News, Logs, Saved, Stored, Chunks, OnDisk, Merged;
    ok := true;
    ghost var c0, off0, size0, tracked := Bytes(fs, f.ip), f.off, f.ip.size, fs.Filed(f.ip) && f.off <= f.ip.size;
    hist := [fs.blocks];
    if off0 <= size0 { SpliceNone(c0, off0, src); }
    if tracked {
      FiledOnDisk(fs, f.ip);
      ChunksOne(fs.sb, fs.blocks, f.ip.iblock, f.ip.index, c0, off0, src);
    }
    if !f.writable {
      return -1, ok, hist;
    }
    var i: nat := 0;
    while i < n
      invariant i == 0 || i <= n
      invariant Sound(fs, f.ip) && Calm(fs) && fs.outstanding <= old(fs.outstanding) && f.off == off0 + i < U32
      invariant i > 0 ==> off0 <= size0 && f.off <= LIMIT
      invariant off0 > size0 ==> Bytes(fs, f.ip) == c0 && f.ip.size == size0
      invariant off0 <= size0 ==> Bytes(fs, f.ip) == Splice(c0, off0, src[..i]) && f.ip.size == Max(size0, off0 + i)
      invariant i == n || i % MAXCHUNK == 0
      invariant |hist| >= 1 && hist[0] == old(fs.blocks) && hist[|hist| - 1] == fs.blocks && i <= |src|
      invariant old(fs.Durable()) ==> fs.Durable()
      invariant tracked ==> fs.Filed(f.ip) && Chunks(fs.sb, hist, f.ip.iblock, f.ip.index, c0, off0, src, i)
      invariant i == n || i == (|hist| - 1) * MAXCHUNK
    {
      NoHolesMeans(f.ip.addrs, fs.blocks, f.ip.size);
      var n1 := n - i;
      if n1 > MAXCHUNK {
        n1 := MAXCHUNK;
      }
      var w;
      ghost var begun, ended;
      w, ok, begun, ended := WriteOp(fs, f, src[i..], n1);
      if !ok {
        return 0, ok, hist;
      }
      if w >= 0 && off0 <= size0 {
        SpliceTwice(c0, off0, src, i, n1);
        assert src[i..][..n1] == src[i..i + n1];
      }
      ghost var i' := if w < 0 then i else i + n1;
      if tracked {
        FiledOnDisk(fs, f.ip);
        ChunksMore(fs.sb, hist, f.ip.iblock, f.ip.index, c0, off0, src, i, i', fs.blocks);
      }
      hist := hist + [fs.blocks];
      if w < 0 {
        break;
      }
      assert w == n1;
      NextChunk(i);
      i := i + w;
    }
    r := if i == n then n else -1;
  }

  lemma ChunksOne(sb: Super, b: seq<Block>, i: nat, k: nat, c0: seq<Byte>, off: nat, src: seq<Byte>)
    requires off <= |c0| && OnDisk(sb, b, i, k, c0)
    ensures Chunks(sb, [b], i, k, c0, off, src, 0)
  {
    hide OnDisk;
    SpliceNone(c0, off, src);
  }
}
