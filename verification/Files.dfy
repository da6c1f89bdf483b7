/** fs.c over the logical contents of the disk. What the cache makes of them is in Recycling. */
module Files {
  import opened Blocks
  import opened BlockTree
  import opened FileData
  import opened Durability
  import opened Capacity

  import Bio

  const U32 := 0x1_0000_0000  // off and n are unsigned 32-bit, and off + n wraps
  const IPB := 8              // inodes per block: 64 bytes, or 16 words, each

  class Inode {
    var addrs: seq<Word>
    var size: Word
    const iblock: nat     // IBLOCK, the block of the on-disk copy
    const index: nat      // inum % IPB, its place in that block

    constructor (iblock: nat, index: nat)
      ensures |addrs| == NADDRS && (forall i :: 0 <= i < NADDRS ==> addrs[i] == 0) && size == 0
      ensures this.iblock == iblock && this.index == index
    {
      addrs, size := seq(NADDRS, _ => 0), 0;
      this.iblock, this.index := iblock, index;
    }
  }

  /** x holds the size and the addresses of an inode at place i, in the order of struct dinode. */
  ghost predicate Stored(x: Block, i: nat, size: Word, addrs: seq<Word>)
    requires i < IPB && |addrs| == NADDRS
  {
    GetWord(x, 16 * i + 2) == size && forall w :: 16 * i + 3 <= w < 16 * i + 16 ==> GetWord(x, w) == addrs[w - 16 * i - 3]
  }

  /** In block i only the size and the addresses at place k may differ. */
  ghost predicate SameOthers(b1: seq<Block>, b2: seq<Block>, i: nat, k: nat)
    requires k < IPB
  {
    && |b1| == |b2| && i < |b1|
    && forall w :: 0 <= w < NWORDS && !(16 * k + 2 <= w < 16 * k + 16) ==> GetWord(b2[i], w) == GetWord(b1[i], w)
  }

  /** The block that bmap logs last: the singly indirect one when a slot of it was empty, the data block beyond it. */
  ghost function LastLog(a0: seq<Word>, b0: seq<Block>, a1: seq<Word>, b1: seq<Block>, p: Path): set<nat>
    requires |a0| == |a1| == NADDRS && IsPath(p)
  {
    if p[0] < NDIRECT then {}
    else if p[0] == NDIRECT then if Addr(a0, b0, p) != 0 then {} else {Addr(a1, b1, [NDIRECT])}
    else {Addr(a1, b1, p)}
  }

  ghost predicate LoggedBy(sb: Super, f0: set<nat>, f1: set<nat>, l0: set<nat>, l1: set<nat>, x: set<nat>) {
    f1 <= f0 && l1 == l0 + NewLog(sb, f0, f1) + x
  }

  /** The blocks of the file blocks from lo to hi - 1. */
  ghost function Leaves(a: seq<Word>, b: seq<Block>, lo: nat, hi: nat): set<nat>
    requires |a| == NADDRS
  {
    set bn | lo <= bn < hi && bn < MAXFILE :: Addr(a, b, LeafPath(bn))
  }

  /** The singly indirect block. */
  ghost function Single(a: seq<Word>, b: seq<Block>): set<nat>
    requires |a| == NADDRS
  {
    {Addr(a, b, [NDIRECT])} - {0}
  }

  /** Since l0, when f0 was free, only blocks taken were logged, their bitmap blocks, the blocks of a range of the file,
      the singly indirect one and those in x. */
  ghost predicate LogWithin(sb: Super, f0: set<nat>, f1: set<nat>, l0: set<nat>, l1: set<nat>, a: seq<Word>, b: seq<Block>, lo: nat, hi: nat, x: set<nat>)
    requires |a| == NADDRS
  {
    f1 <= f0 && l1 <= l0 + NewLog(sb, f0, f1) + Leaves(a, b, lo, hi) + Single(a, b) + x
  }

  class Fs {
    const sb: Super
    var blocks: seq<Block>
    var outstanding: nat              // log.outstanding
    var logged: set<nat>              // log.lh: the blocks given to log_write since the last commit
    ghost var committed: seq<Block>   // what the last commit made durable

    constructor (sb: Super, blocks: seq<Block>, outstanding: nat)
      ensures this.sb == sb && this.blocks == blocks == committed && this.outstanding == outstanding && logged == {}
    {
      this.sb, this.blocks, this.outstanding, logged, committed := sb, blocks, outstanding, {}, blocks;
    }

    /** The next commit will save every block that has changed. */
    ghost predicate Durable()
      reads this
    {
      Saved(blocks, committed, logged)
    }

    /** The boot block, the superblock, the log, the inodes and the bitmap are in use (mkfs). */
    ghost predicate Valid()
      reads this
    {
      sb.Ok() && |blocks| == sb.size && forall c :: 0 <= c < sb.lo ==> Used(sb, blocks, c)
    }

    /** log_write; false stands for its panics, with the log full or outside a transaction. */
    method LogWrite(bno: nat) returns (ok: bool)
      modifies this`logged
      ensures ok <==> outstanding >= 1 && |old(logged)| < 29
      ensures logged == if ok then old(logged) + {bno} else old(logged)
    {
      ok := |logged| < ROOM && outstanding >= 1;
      if ok {
        logged := logged + {bno};
      }
    }

    /** What balloc does with the free block f: its bit is set and bzero fills it. */
    method Claim(f: nat) returns (ok: bool)
      requires sb.Ok() && |blocks| == sb.size && f < sb.size
      modifies this`blocks, this`logged
      ensures ok <==> outstanding >= 1 && |old(logged)| < ROOM && |old(logged) + {sb.BBlock(f)}| < ROOM
      ensures ok ==> blocks == Taken(sb, old(blocks), f) && logged == old(logged) + {sb.BBlock(f), f}
      ensures |blocks| == sb.size && (!ok ==> outstanding == 0 || |logged| >= ROOM)
    {
      hide PutBit;
      blocks := Mark(sb, blocks, f, true);
      ok := LogWrite(sb.BBlock(f));
      if ok {
        blocks := blocks[f := ZeroBlock()];
        ok := LogWrite(f);
      }
    }

    /** balloc: the first free block, zeroed; false stands for its panics. */
    method Balloc() returns (f: Word, ok: bool)
      requires Valid()
      modifies this`blocks, this`logged
      ensures ok <==> outstanding >= 1 && old(CanTake(sb, FreeBlocks(sb, blocks), logged, 1))
      ensures ok ==> sb.lo <= f < sb.size && !old(Used(sb, blocks, f)) && blocks == Taken(sb, old(blocks), f)
      ensures ok ==> First(old(FreeBlocks(sb, blocks)), f) && forall c :: 0 <= c < f ==> old(Used(sb, blocks, c))
      ensures ok ==> logged == old(logged) + {sb.BBlock(f), f}
      ensures |blocks| == sb.size && (!ok ==> Stuck())
      ensures !ok && outstanding >= 1 && |old(logged)| + 2 <= ROOM ==> blocks == old(blocks) && FreeBlocks(sb, blocks) == {}
    {
      hide Used, Taken, CanTake;
      var b := 0;
      while b < sb.size
        invariant b % BPB == 0 && blocks == old(blocks) && logged == old(logged)
        invariant forall c :: 0 <= c < b && c < sb.size ==> Used(sb, blocks, c)
      {
        var bi := ScanMap(b);
        if bi < BPB && b + bi < sb.size {
          f := b + bi;
          TakeFirst(sb, FreeBlocks(sb, blocks), logged, f);
          AddedSize(logged, sb.BBlock(f));
          ok := Claim(f);
          return;
        }
        b := b + BPB;
      }
      NoneFree(sb, FreeBlocks(sb, blocks), logged);
      f, ok := 0, false;
    }

    /** Its loop over one block of the bitmap: the first bit that is clear. */
    method ScanMap(b: nat) returns (bi: nat)
      requires sb.Ok() && |blocks| == sb.size && b % BPB == 0 && b < sb.size
      ensures bi <= BPB && (bi < BPB ==> b + bi >= sb.size || !Used(sb, blocks, b + bi))
      ensures forall c :: b <= c < b + bi && c < sb.size ==> Used(sb, blocks, c)
    {
      hide GetBit, Used;
      bi := 0;
      while bi < BPB && b + bi < sb.size
        invariant 0 <= bi <= BPB
        invariant forall c :: b <= c < b + bi && c < sb.size ==> Used(sb, blocks, c)
      {
        BitOf(sb, blocks, b, bi);
        if !GetBit(blocks[sb.BBlock(b)], bi) {
          return;
        }
        bi := bi + 1;
      }
    }

    /** bfree: clear the bit; false stands for its panics. */
    method Bfree(b: nat) returns (ok: bool)
      requires sb.Ok() && |blocks| == sb.size && b < sb.size
      modifies this`blocks, this`logged
      ensures ok <==> outstanding >= 1 && |old(logged)| < ROOM && old(Used(sb, blocks, b))
      ensures ok ==> blocks == Mark(sb, old(blocks), b, false)
      ensures ok ==> logged == old(logged) + {sb.BBlock(b)}
      ensures |blocks| == sb.size && (!ok ==> logged == old(logged)) && (!ok && !old(Used(sb, blocks, b)) ==> blocks == old(blocks))
    {
      if !GetBit(blocks[sb.BBlock(b)], b % BPB) {
        return false;
      }
      blocks := Mark(sb, blocks, b, false);
      ok := LogWrite(sb.BBlock(b));
    }

    /** Nothing can be allocated: no transaction, no free block or no room in the log. */
    ghost predicate Stuck()
      requires sb.Ok() && |blocks| == sb.size
      reads this
    {
      outstanding == 0 || FreeBlocks(sb, blocks) == {} || |logged| >= ROOM
    }

    /** What filling (or finding) slot p does, the tree having grown from (a0, b0) so far:
        taken tells whether balloc ran. */
    twostate predicate Filled(a0: seq<Word>, b0: seq<Block>, a1: seq<Word>, p: Path, addr: nat, taken: bool, holder: set<nat>)
      requires Sized(sb, a0, b0) && IsPath(p) && old(|blocks|) == sb.size
      reads this
    {
      && Valid() && Grew(sb, a0, b0, a1, blocks, p) && addr == Addr(a1, blocks, p) != 0
      && Found(sb, a0, b0, p, addr, taken) && (!taken ==> blocks == old(blocks))
      && logged == old(logged) + TakenSet(sb, taken, addr)
      && (forall c :: 0 <= c < sb.size && c !in TakenSet(sb, taken, addr) + (if taken then holder else {}) ==> blocks[c] == old(blocks)[c])
      && SameBelow(sb.bmapstart, old(blocks), blocks)
      && (forall c :: 0 <= c < sb.size && Used(sb, blocks, c) && !old(Used(sb, blocks, c)) ==> c in TakenSet(sb, taken, addr))
      && (taken ==> First(old(FreeBlocks(sb, blocks)), addr) && CanTake(sb, old(FreeBlocks(sb, blocks)), old(logged), 1))
      && FreeBlocks(sb, blocks) == old(FreeBlocks(sb, blocks)) - (if taken then {addr} else {})
    }

    /** bmap looks at slot r of the inode and allocates a block for it when it is empty. */
    method RootSlot(ip: Inode, r: nat) returns (addr: Word, ghost taken: bool, ok: bool)
      requires Valid() && r < NADDRS && TreeOk(sb, ip.addrs, blocks)
      modifies this`blocks, this`logged, ip`addrs
      ensures |blocks| == sb.size && (!ok ==> Stuck())
      ensures ok <==> old(Addr(ip.addrs, blocks, [r])) != 0 || (outstanding >= 1 && old(CanTake(sb, FreeBlocks(sb, blocks), logged, 1)))
      ensures ok ==> Filled(old(ip.addrs), old(blocks), ip.addrs, [r], addr, taken, {})
      ensures ok && !taken ==> ip.addrs == old(ip.addrs)
    {
      hide Used, Placed, Unshared, GrewSlots, GrewBits, GrewKept, Taken, Stepped, CanTake, FreeBlocks;
      GrewNone(sb, ip.addrs, blocks);
      addr, taken, ok := ip.addrs[r], false, true;
      if addr == 0 {
        addr, ok := Balloc();
        taken := true;
        if ok {
          SlotStep(sb, ip.addrs, old(blocks), [r], addr);
          GrewStep(sb, ip.addrs, old(blocks), ip.addrs, old(blocks), ip.addrs[r := addr], blocks, [], [r], addr);
          StillValid(sb, ip.addrs, old(blocks), ip.addrs[r := addr], blocks, [r], addr);
          TakenElsewhere(sb, old(blocks), addr);
          ip.addrs := ip.addrs[r := addr];
        }
      } else {
        GrewStay(sb, ip.addrs, blocks, ip.addrs, blocks, [], [r]);
      }
    }

    /** The same for slot i of the index block bp. */
    method IndexSlot(ghost ip: Inode, bp: nat, i: nat, ghost p: Path, ghost a0: seq<Word>, ghost b0: seq<Block>)
      returns (addr: Word, taken: bool, ok: bool)
      requires Valid() && IsPath(p) && |p| > 1 && p[|p| - 1] == i && Grew(sb, a0, b0, ip.addrs, blocks, Parent(p))
      requires bp == Addr(ip.addrs, blocks, Parent(p)) != 0
      modifies this`blocks, this`logged
      ensures |blocks| == sb.size && (!ok ==> Stuck())
      ensures ok <==> Addr(a0, b0, p) != 0 || (outstanding >= 1 && old(CanTake(sb, FreeBlocks(sb, blocks), logged, 1)))
      ensures ok ==> Filled(a0, b0, ip.addrs, p, addr, taken, {bp})
    {
      hide Addr, Used, Unshared, Grew, Taken, GetWord, SetWord, Placed, FreeBlocks, Found, SameBelow, CanTake;
      GrewMeans(sb, a0, b0, ip.addrs, blocks, Parent(p));
      SlotWord(sb, ip.addrs, blocks, p);
      SameSlot(sb, a0, b0, ip.addrs, blocks, p);
      SomeFree(sb, blocks);
      SameSelf(sb.bmapstart, blocks);
      FoundThere(sb, a0, b0, p);
      addr, taken, ok := GetWord(blocks[bp], i), false, true;
      if addr == 0 {
        addr, ok := Balloc();
        taken := true;
        if ok {
          IndexStep(sb, a0, b0, ip.addrs, old(blocks), bp, i, p, addr);
          blocks := blocks[bp := SetWord(blocks[bp], i, addr)];
        }
      } else {
        GrewStay(sb, a0, b0, ip.addrs, blocks, Parent(p), p);
      }
    }

    /** What bmap does for the leaf slot p when it returns addr. */
    twostate predicate Mapped(a0: seq<Word>, b0: seq<Block>, a1: seq<Word>, p: Path, addr: nat)
      requires Sized(sb, a0, b0) && IsPath(p) && old(|blocks|) == sb.size
      reads this
    {
      // p now has a block; no slot that was in use changed, and nothing is shared
      && Valid() && Grew(sb, a0, b0, a1, blocks, p) && addr == Addr(a1, blocks, p) != 0
      // a block that was mapped already is found without a change
      && (Addr(a0, b0, p) != 0 ==> blocks == b0 && a1 == a0 && logged == old(logged) + if p[0] > NDIRECT then {addr} else {})
      // what is logged are the blocks taken, their bitmap blocks and the last block
      && LoggedBy(sb, old(FreeBlocks(sb, blocks)), FreeBlocks(sb, blocks), old(logged), logged, LastLog(a0, b0, a1, blocks, p))
      // nothing changes before the bitmap
      && SameBelow(sb.bmapstart, b0, blocks)
      // every block that changed is logged, but for the index blocks that bmap forgets, and no such block is
      && Traced(sb, a0, b0, old(logged), blocks, logged, Unlogged(a0, b0, p))
      // so the next commit saves everything exactly when those had been logged before
      && (old(Durable()) ==> (Durable() <==> Unlogged(a0, b0, p) <= old(logged)))
    }

    /** The first step of each indirection, on the way to slot p. */
    method TopSlot(ip: Inode, r: nat, ghost p: Path) returns (root: Word, ghost taken: bool, ok: bool)
      requires Valid() && TreeOk(sb, ip.addrs, blocks) && IsPath(p) && p[0] == r
      modifies this`blocks, this`logged, ip`addrs
      ensures |blocks| == sb.size && (!ok ==> Stuck())
      ensures var m := if old(Addr(ip.addrs, blocks, [r])) == 0 then 1 else 0;
              && (ok <==> m == 0 || (outstanding >= 1 && old(CanTake(sb, FreeBlocks(sb, blocks), logged, m))))
              && (ok ==> Upto(sb, old(FreeBlocks(sb, blocks)), old(logged), m, FreeBlocks(sb, blocks), logged))
              && (ok && m == 0 ==> blocks == old(blocks) && ip.addrs == old(ip.addrs))
      ensures ok ==> Valid() && Grew(sb, old(ip.addrs), old(blocks), ip.addrs, blocks, [r]) && root == Addr(ip.addrs, blocks, [r]) != 0
      ensures ok ==> Found(sb, old(ip.addrs), old(blocks), [r], root, taken) && TakenSet(sb, taken, root) <= logged
      ensures ok ==> NotDeep(old(ip.addrs), old(blocks), {root as nat}) || r > NDIRECT
      ensures ok ==> Traced(sb, old(ip.addrs), old(blocks), old(logged), blocks, logged, Unlogged(old(ip.addrs), old(blocks), p))
      ensures ok ==> SameBelow(sb.bmapstart, old(blocks), blocks)
    {
      hide Addr, Used, Placed, Unshared, Grew, Found, TakenSet, Unlogged, Traced, Saved, NotDeep, FreeBlocks, SameBelow, Upto, CanTake, FreeAfter, LogAfter;
      ghost var a0, b0, l0, u, f0 := ip.addrs, blocks, logged, Unlogged(ip.addrs, blocks, p), FreeBlocks(sb, blocks);
      TracedNone(sb, a0, b0, l0, u);
      UptoNone(sb, f0, l0);
      root, taken, ok := RootSlot(ip, r);
      if ok {
        FoundMeans(sb, a0, b0, [r], root, taken);
        SlotTraced(sb, a0, b0, l0, b0, l0, blocks, [r], root, taken, {}, u);
        if r <= NDIRECT { TakenNotDeep(sb, a0, b0, [r], root, taken); }
        UptoStep(sb, f0, l0, 0, f0, l0, taken, root, FreeBlocks(sb, blocks), logged);
      }
    }

    /** The first two steps of the double and of the triple indirection, on the way to slot p. */
    method UpperSlots(ip: Inode, r: nat, i: nat, ghost p: Path) returns (mid: Word, ghost taken: bool, ok: bool)
      requires Valid() && TreeOk(sb, ip.addrs, blocks) && IsPath(p) && |p| > 2 && p[0] == r > NDIRECT && p[1] == i
      modifies this`blocks, this`logged, ip`addrs
      ensures |blocks| == sb.size && (!ok ==> Stuck()) && IsPath(p[..2])
      ensures var m := old(Missing(ip.addrs, blocks, p[..2]));
              && (ok <==> m == 0 || (outstanding >= 1 && old(CanTake(sb, FreeBlocks(sb, blocks), logged, m))))
              && (ok ==> Upto(sb, old(FreeBlocks(sb, blocks)), old(logged), m, FreeBlocks(sb, blocks), logged))
              && (ok && m == 0 ==> blocks == old(blocks) && ip.addrs == old(ip.addrs))
      ensures ok ==> Valid() && Grew(sb, old(ip.addrs), old(blocks), ip.addrs, blocks, p[..2]) && mid == Addr(ip.addrs, blocks, p[..2]) != 0
      ensures ok ==> Found(sb, old(ip.addrs), old(blocks), p[..2], mid, taken) && TakenSet(sb, taken, mid) <= logged
      ensures ok ==> Traced(sb, old(ip.addrs), old(blocks), old(logged), blocks, logged, Unlogged(old(ip.addrs), old(blocks), p))
      ensures ok ==> SameBelow(sb.bmapstart, old(blocks), blocks)
    {
      hide Addr, Used, Placed, Unshared, Grew, Found, TakenSet, Unlogged, Missing, Traced, Saved, NotDeep, FreeBlocks, SameBelow, Upto, CanTake, FreeAfter, LogAfter, LoggedBy, LastLog, NewLog;
      ghost var a0, b0, l0, p1, p2 := ip.addrs, blocks, logged, [p[0]], p[..2];
      assert p2 == [p[0], i] && p2[..1] == p[..1] == p1 == Parent(p2);
      MissingTwo(a0, b0, p2);
      ghost var f0, m, k1 := FreeBlocks(sb, blocks), Missing(a0, b0, p2), if Addr(a0, b0, p1) == 0 then 1 else 0;
      var root;
      ghost var t;
      mid, taken := 0, false;
      root, t, ok := TopSlot(ip, r, p);
      if ok {
        ghost var b1, l1, f1 := blocks, logged, FreeBlocks(sb, blocks);
        mid, taken, ok := IndexSlot(ip, root, i, p2, a0, b0);
        if ok {
          NextLevel(sb, a0, b0, l0, f0, b1, l1, f1, k1, blocks, logged, FreeBlocks(sb, blocks), p, 1, root, t, mid, taken);
          UptoMeans(sb, f0, l0, m, FreeBlocks(sb, blocks), logged);
          SameTwice(sb.bmapstart, b0, b1, blocks);
        } else if outstanding >= 1 {
          UptoStuck(sb, f0, l0, k1, f1, l1, m);
        }
      } else if outstanding >= 1 {
        NotFewer(sb, f0, l0, k1, m);
      }
    }

    /** The double indirection of bmap. */
    method BmapDouble(ip: Inode, i: nat, j: nat) returns (addr: Word, ok: bool)
      requires Valid() && TreeOk(sb, ip.addrs, blocks) && i < NINDIRECT && j < NINDIRECT
      modifies this`blocks, this`logged, ip`addrs
      ensures |blocks| == sb.size
      ensures ok ==> Mapped(old(ip.addrs), old(blocks), ip.addrs, [NDIRECT + 1, i, j], addr)
      ensures ok <==> outstanding >= 1 && old(CanFill(sb, FreeBlocks(sb, blocks), logged, Missing(ip.addrs, blocks, [NDIRECT + 1, i, j])))
      ensures !ok ==> Stuck()
    {
      hide Addr, Used, Placed, Unshared, Grew, Found, TakenSet, Unlogged, Missing, Traced, Saved, NotDeep, FreeBlocks, SameBelow, Upto, CanTake, FreeAfter, LogAfter, LoggedBy, LastLog, NewLog;
      ghost var a0, b0, l0, p := ip.addrs, blocks, logged, [NDIRECT + 1, i, j];
      assert p[..2] == [NDIRECT + 1, i] == Parent(p) && p[..3] == p;
      MissingThree(a0, b0, p);
      ghost var f0, m := FreeBlocks(sb, blocks), Missing(a0, b0, p);
      var mid;
      ghost var v, w;
      addr := 0;
      mid, v, ok := UpperSlots(ip, NDIRECT + 1, i, p);
      if ok {
        ghost var b2, l2, f2, k2 := blocks, logged, FreeBlocks(sb, blocks), Missing(a0, b0, p[..2]);
        addr, w, ok := IndexSlot(ip, mid, j, p, a0, b0);
        if ok {
          LastLevel(sb, a0, b0, l0, f0, b2, l2, f2, k2, blocks, logged, FreeBlocks(sb, blocks), p, mid, v, addr, w, m);
          SameTwice(sb.bmapstart, b0, b2, blocks);
          ok := LogWrite(addr);
          LastIs(sb, a0, b0, ip.addrs, blocks, p);
          if ok { MappedIff(sb, a0, b0, l0, ip.addrs, blocks, logged, committed, p); }
        } else if outstanding >= 1 {
          UptoStuck(sb, f0, l0, k2, f2, l2, m);
        }
      } else if outstanding >= 1 {
        NotFewer(sb, f0, l0, Missing(a0, b0, p[..2]), m);
      }
    }

    /** The first three steps of the triple indirection. */
    method LowerSlots(ip: Inode, i: nat, j: nat, ghost p: Path) returns (low: Word, ghost taken: bool, ok: bool)
      requires Valid() && TreeOk(sb, ip.addrs, blocks) && IsPath(p) && |p| == 4 && p[0] == NDIRECT + 2 && p[1] == i && p[2] == j
      modifies this`blocks, this`logged, ip`addrs
      ensures |blocks| == sb.size && (!ok ==> Stuck()) && IsPath(p[..3])
      ensures var m := old(Missing(ip.addrs, blocks, p[..3]));
              && (ok <==> m == 0 || (outstanding >= 1 && old(CanTake(sb, FreeBlocks(sb, blocks), logged, m))))
              && (ok ==> Upto(sb, old(FreeBlocks(sb, blocks)), old(logged), m, FreeBlocks(sb, blocks), logged))
              && (ok && m == 0 ==> blocks == old(blocks) && ip.addrs == old(ip.addrs))
      ensures ok ==> Valid() && Grew(sb, old(ip.addrs), old(blocks), ip.addrs, blocks, p[..3]) && low == Addr(ip.addrs, blocks, p[..3]) != 0
      ensures ok ==> Found(sb, old(ip.addrs), old(blocks), p[..3], low, taken) && TakenSet(sb, taken, low) <= logged
      ensures ok ==> Traced(sb, old(ip.addrs), old(blocks), old(logged), blocks, logged, Unlogged(old(ip.addrs), old(blocks), p))
      ensures ok ==> SameBelow(sb.bmapstart, old(blocks), blocks)
    {
      hide Addr, Used, Placed, Unshared, Grew, Found, TakenSet, Unlogged, Missing, Traced, Saved, NotDeep, FreeBlocks, SameBelow, Upto, CanTake, FreeAfter, LogAfter;
      ghost var a0, b0, l0, p2, p3 := ip.addrs, blocks, logged, p[..2], p[..3];
      assert p2 == [NDIRECT + 2, i] == Parent(p3) == p3[..2] && p3 == [NDIRECT + 2, i, j];
      MissingThree(a0, b0, p3);
      ghost var f0, m := FreeBlocks(sb, blocks), Missing(a0, b0, p3);
      var mid;
      ghost var v;
      low, taken := 0, false;
      mid, v, ok := UpperSlots(ip, NDIRECT + 2, i, p);
      if ok {
        ghost var b2, l2, f2, k2 := blocks, logged, FreeBlocks(sb, blocks), Missing(a0, b0, p2);
        low, taken, ok := IndexSlot(ip, mid, j, p3, a0, b0);
        if ok {
          NextLevel(sb, a0, b0, l0, f0, b2, l2, f2, k2, blocks, logged, FreeBlocks(sb, blocks), p, 2, mid, v, low, taken);
          UptoMeans(sb, f0, l0, m, FreeBlocks(sb, blocks), logged);
          SameTwice(sb.bmapstart, b0, b2, blocks);
        } else if outstanding >= 1 {
          UptoStuck(sb, f0, l0, k2, f2, l2, m);
        }
      } else if outstanding >= 1 {
        NotFewer(sb, f0, l0, Missing(a0, b0, p2), m);
      }
    }

    /** The triple indirection of bmap. */
    method BmapTriple(ip: Inode, i: nat, j: nat, k: nat) returns (addr: Word, ok: bool)
      requires Valid() && TreeOk(sb, ip.addrs, blocks) && i < NINDIRECT && j < NINDIRECT && k < NINDIRECT
      modifies this`blocks, this`logged, ip`addrs
      ensures |blocks| == sb.size
      ensures ok ==> Mapped(old(ip.addrs), old(blocks), ip.addrs, [NDIRECT + 2, i, j, k], addr)
      ensures ok <==> outstanding >= 1 && old(CanFill(sb, FreeBlocks(sb, blocks), logged, Missing(ip.addrs, blocks, [NDIRECT + 2, i, j, k])))
      ensures !ok ==> Stuck()
    {
      hide Addr, Used, Placed, Unshared, Grew, Found, TakenSet, Unlogged, Missing, Traced, Saved, NotDeep, FreeBlocks, SameBelow, Upto, CanTake, FreeAfter, LogAfter, LoggedBy, LastLog, NewLog;
      ghost var a0, b0, l0, p := ip.addrs, blocks, logged, [NDIRECT + 2, i, j, k];
      assert p[..3] == [NDIRECT + 2, i, j] == Parent(p) && p[..4] == p;
      MissingFour(a0, b0, p);
      ghost var f0, m := FreeBlocks(sb, blocks), Missing(a0, b0, p);
      var low;
      ghost var v, w;
      addr := 0;
      low, v, ok := LowerSlots(ip, i, j, p);
      if ok {
        ghost var b3, l3, f3, k3 := blocks, logged, FreeBlocks(sb, blocks), Missing(a0, b0, p[..3]);
        addr, w, ok := IndexSlot(ip, low, k, p, a0, b0);
        if ok {
          LastLevel(sb, a0, b0, l0, f0, b3, l3, f3, k3, blocks, logged, FreeBlocks(sb, blocks), p, low, v, addr, w, m);
          SameTwice(sb.bmapstart, b0, b3, blocks);
          ok := LogWrite(addr);
          LastIs(sb, a0, b0, ip.addrs, blocks, p);
          if ok { MappedIff(sb, a0, b0, l0, ip.addrs, blocks, logged, committed, p); }
        } else if outstanding >= 1 {
          UptoStuck(sb, f0, l0, k3, f3, l3, m);
        }
      } else if outstanding >= 1 {
        NotFewer(sb, f0, l0, Missing(a0, b0, p[..3]), m);
      }
    }

    /** The single indirection of bmap, the only one that logs the index block it changes. */
    method BmapSingle(ip: Inode, i: nat) returns (addr: Word, ok: bool)
      requires Valid() && TreeOk(sb, ip.addrs, blocks) && i < NINDIRECT
      modifies this`blocks, this`logged, ip`addrs
      ensures |blocks| == sb.size
      ensures ok ==> Mapped(old(ip.addrs), old(blocks), ip.addrs, [NDIRECT, i], addr)
      ensures var m := old(Missing(ip.addrs, blocks, [NDIRECT, i]));
              ok <==> m == 0 || (outstanding >= 1 && old(CanFill(sb, FreeBlocks(sb, blocks), logged, m)))
      ensures !ok ==> Stuck()
    {
      hide Addr, Used, Placed, Unshared, Grew, Found, TakenSet, Missing, Traced, Saved, NotDeep, Unlogged, FreeBlocks, SameBelow, Upto, CanTake, FreeAfter, LogAfter, LoggedBy, LastLog, NewLog;
      ghost var a0, b0, l0, p := ip.addrs, blocks, logged, [NDIRECT, i];
      assert p[..1] == [NDIRECT] == Parent(p) && p[..2] == p;
      MissingTwo(a0, b0, p);
      ghost var f0, m, k1 := FreeBlocks(sb, blocks), Missing(a0, b0, p), if Addr(a0, b0, [NDIRECT]) == 0 then 1 else 0;
      var root, taken;
      ghost var t;
      addr := 0;
      root, t, ok := TopSlot(ip, NDIRECT, p);
      if ok {
        ghost var b1, l1, f1 := blocks, logged, FreeBlocks(sb, blocks);
        addr, taken, ok := IndexSlot(ip, root, i, p, a0, b0);
        if ok {
          SingleLevel(sb, a0, b0, l0, f0, ip.addrs, b1, l1, f1, k1, blocks, logged, FreeBlocks(sb, blocks), p, root, addr, taken, m);
          SameTwice(sb.bmapstart, b0, b1, blocks);
          if taken {
            ok := LogWrite(root);
          }
          if ok { MappedIff(sb, a0, b0, l0, ip.addrs, blocks, logged, committed, p); }
        } else if outstanding >= 1 {
          UptoStuck(sb, f0, l0, k1, f1, l1, m);
        }
      } else if outstanding >= 1 {
        NotFewer(sb, f0, l0, k1, m);
      }
    }

    /** The direct part of bmap. */
    method BmapDirect(ip: Inode, bn: nat) returns (addr: Word, ok: bool)
      requires Valid() && TreeOk(sb, ip.addrs, blocks) && bn < NDIRECT
      modifies this`blocks, this`logged, ip`addrs
      ensures |blocks| == sb.size
      ensures ok ==> Mapped(old(ip.addrs), old(blocks), ip.addrs, [bn], addr)
      ensures var m := old(Missing(ip.addrs, blocks, [bn]));
              ok <==> m == 0 || (outstanding >= 1 && old(CanTake(sb, FreeBlocks(sb, blocks), logged, m)))
      ensures !ok ==> Stuck()
    {
      hide Addr, Used, Placed, Unshared, Grew, Found, TakenSet, Traced, Saved, NotDeep, FreeBlocks, Unlogged, CanTake, CanFill, LoggedBy, LastLog;
      ghost var a0, b0, l0, t, u := ip.addrs, blocks, logged, false, Unlogged(ip.addrs, blocks, [bn]);
      TracedNone(sb, a0, b0, l0, u);
      addr, t, ok := RootSlot(ip, bn);
      NoneTaken(sb, FreeBlocks(sb, b0), l0);
      if ok {
        FoundLogged(sb, a0, b0, [bn], addr, t);
        FoundMeans(sb, a0, b0, [bn], addr, t);
        SlotTraced(sb, a0, b0, l0, b0, l0, blocks, [bn], addr, t, {}, u);
        MappedIff(sb, a0, b0, l0, ip.addrs, blocks, logged, committed, [bn]);
        LoggedDirect(sb, FreeBlocks(sb, b0), FreeBlocks(sb, blocks), l0, logged, addr, t);
        LastIs(sb, a0, b0, ip.addrs, blocks, [bn]);
      }
    }

    /** There is a free block for each empty slot on the way to file block bn, and room in the log for those blocks,
        their bitmap blocks and the last block that bmap logs: the singly indirect one when a slot of it was empty, the
        data block itself beyond it. Nothing can be logged outside a transaction. */
    ghost predicate Mappable(addrs: seq<Word>, bn: nat)
      requires Sized(sb, addrs, blocks)
      reads this
    {
      bn < MAXFILE &&
      var m, free := Missing(addrs, blocks, LeafPath(bn)), FreeBlocks(sb, blocks);
      if bn < NDIRECT then m == 0 || (outstanding >= 1 && CanTake(sb, free, logged, m))
      else if bn < NDIRECT + NINDIRECT then m == 0 || (outstanding >= 1 && CanFill(sb, free, logged, m))
      else outstanding >= 1 && CanFill(sb, free, logged, m)
    }

    /** bmap: the block that holds file block bn, allocated if need be; false stands for its panics. */
    method Bmap(ip: Inode, bn: nat) returns (addr: Word, ok: bool)
      requires Valid() && TreeOk(sb, ip.addrs, blocks)
      modifies this`blocks, this`logged, ip`addrs
      ensures |blocks| == sb.size
      ensures ok ==> bn < MAXFILE && Mapped(old(ip.addrs), old(blocks), ip.addrs, LeafPath(bn), addr)
      ensures ok <==> old(Mappable(ip.addrs, bn))
      // ten direct addresses, then 128 and 128 * 128 and 128 * 128 * 128 more behind one, two and three index blocks
      ensures ok && bn < 10 ==> |ip.addrs| == 13 && addr == ip.addrs[bn]
      ensures ok && 10 <= bn < 138 ==> |ip.addrs| == 13 && 0 < ip.addrs[10] < |blocks| && addr == GetWord(blocks[ip.addrs[10]], bn - 10)
      ensures ok && 138 <= bn < 16522 ==>
        && |ip.addrs| == 13 && 0 < ip.addrs[11] < |blocks|
        && var x := GetWord(blocks[ip.addrs[11]], (bn - 138) / 128);
           0 < x < |blocks| && addr == GetWord(blocks[x], (bn - 138) % 128)
      ensures ok && 16522 <= bn ==>
        && bn < 2113674 && |ip.addrs| == 13 && 0 < ip.addrs[12] < |blocks|
        && var x := GetWord(blocks[ip.addrs[12]], (bn - 16522) / 16384);
           0 < x < |blocks| && var y := GetWord(blocks[x], (bn - 16522) / 128 % 128);
           0 < y < |blocks| && addr == GetWord(blocks[y], (bn - 16522) % 128)
      ensures !ok ==> bn >= MAXFILE || Stuck()
    {
      hide Addr, Used, Placed, Unshared, Grew, Found, TakenSet, Traced, Saved, NotDeep, FreeBlocks, Unlogged, CanTake, CanFill, LoggedBy, LastLog, GetWord, Missing;
      ghost var a0, b0 := ip.addrs, blocks;
      addr, ok := 0, false;
      if bn < NDIRECT {
        addr, ok := BmapDirect(ip, bn);
      } else if bn - NDIRECT < NINDIRECT {
        addr, ok := BmapSingle(ip, bn - NDIRECT);
      } else {
        var b2 := bn - NDIRECT - NINDIRECT;
        if b2 < NINDIRECT * NINDIRECT {
          addr, ok := BmapDouble(ip, b2 / NINDIRECT, b2 % NINDIRECT);
        } else {
          var b3 := b2 - NINDIRECT * NINDIRECT;
          if b3 < NINDIRECT * NINDIRECT * NINDIRECT {
            ghost var p := TriplePath(b3);
            addr, ok := BmapTriple(ip, b3 / (NINDIRECT * NINDIRECT), b3 % (NINDIRECT * NINDIRECT) / NINDIRECT, b3 % NINDIRECT);
          }
        }
      }
      if ok {
        GrewMeans(sb, a0, b0, ip.addrs, blocks, LeafPath(bn));
        AddrExactly(ip.addrs, blocks, bn);
      }
    }

    /** The on-disk copy of an inode has its place in a block before the bitmap (mkfs). */
    ghost predicate Homed(ip: Inode)
      reads ip
    {
      ip.iblock < sb.bmapstart && ip.index < IPB && |ip.addrs| == NADDRS
    }

    /** The on-disk copy agrees with the inode. */
    ghost predicate Filed(ip: Inode)
      requires Homed(ip) && sb.Ok() && |blocks| == sb.size
      reads this, ip
    {
      Stored(blocks[ip.iblock], ip.index, ip.size, ip.addrs)
    }

    /** An inode of this file system: its tree is well formed and covers its size. */
    ghost predicate Sound(ip: Inode)
      reads this, ip
    {
      Valid() && Homed(ip) && TreeOk(sb, ip.addrs, blocks) && NoHoles(ip.addrs, blocks, ip.size)
    }

    ghost function Bytes(ip: Inode): seq<Byte>
      requires Sound(ip)
      reads this, ip
    {
      Content(ip.addrs, blocks, ip.size)
    }

    /** readi on a regular file: r is its result, dst what it stored; !ok stands for a panic. */
    method Readi(ip: Inode, offset: nat, count: nat) returns (r: int, dst: seq<Byte>, ok: bool)
      requires Sound(ip) && offset < U32 && count < U32
      modifies this`blocks, this`logged, ip`addrs
      // the file is left alone: nothing is ever allocated by a read
      ensures ok ==> blocks == old(blocks) && ip.addrs == old(ip.addrs)
      ensures ok ==> (r == -1 <==> offset > ip.size || offset + count >= 0x1_0000_0000)
      ensures ok && r != -1 ==> r == Min(count, ip.size - offset) && dst == old(Bytes(ip))[offset..offset + r]
      // the doubly and triply indirect blocks read are logged, and nothing else
      ensures ok && r != -1 ==>
        logged == old(logged) + DeepRead(ip.addrs, blocks, offset / BSIZE, WriteEnd(offset, r))
      // it panics exactly when the log has no room for such a block, or there is no transaction
      ensures ok <==> || offset > ip.size || offset + count >= U32
                      || old(Readable(ip.addrs, blocks, logged, outstanding, offset / BSIZE, WriteEnd(offset, Min(count, ip.size - offset))))
      // so never below block 138, and always from there on outside a transaction
      ensures offset <= ip.size && offset + Min(count, ip.size - offset) <= 138 * 512 ==> ok
      ensures ok && r > 0 && offset + r > 138 * 512 ==> outstanding >= 1
    {
      hide Addr, Used, Placed, Unshared, NoHoles, Content, DeepRead, WriteEnd, Readable;
      dst, ok := [], true;
      if offset > ip.size || (offset + count) % U32 < offset {
        return -1, dst, ok;
      }
      var n := if offset + count > ip.size then ip.size - offset else count;
      r := n;
      ReadableEnds(ip.addrs, blocks, logged, outstanding, offset, n);
      dst, ok := ReadBlocks(ip, offset, n);
    }

    /** The loop of readi. */
    method ReadBlocks(ip: Inode, offset: nat, n: nat) returns (dst: seq<Byte>, ok: bool)
      requires Sound(ip) && offset + n <= ip.size
      modifies this`blocks, this`logged, ip`addrs
      ensures ok ==> blocks == old(blocks) && ip.addrs == old(ip.addrs) && dst == Bytes(ip)[offset..offset + n]
      ensures ok ==> logged == old(logged) + DeepRead(ip.addrs, blocks, offset / BSIZE, WriteEnd(offset, n))
      ensures ok <==> old(Readable(ip.addrs, blocks, logged, outstanding, offset / BSIZE, WriteEnd(offset, n)))
    {
      hide Addr, Used, Placed, Unshared, NoHoles, Content, DeepRead, DeepLeaf, WriteEnd, Readable, LeafPath;
      dst, ok := [], true;
      HoleBound(ip.addrs, blocks, ip.size);
      ghost var a0, b0, l0, lo := ip.addrs, blocks, logged, offset / BSIZE;
      EndBound(offset, n);
      DeepNone(a0, b0, lo);
      ReadableNone(a0, b0, l0, outstanding, lo);
      var tot, off := 0, offset;
      while tot < n
        invariant 0 <= tot <= n && off == offset + tot && (tot == 0 || tot == n || off % BSIZE == 0)
        invariant blocks == b0 && ip.addrs == a0 && Sound(ip)
        invariant logged == l0 + DeepRead(a0, b0, lo, WriteEnd(offset, tot))
        invariant Readable(a0, b0, l0, outstanding, lo, WriteEnd(offset, tot))
        invariant dst == Bytes(ip)[offset..off]
      {
        var m := Min(n - tot, BSIZE - off % BSIZE);
        NextBlock(offset, tot, m);
        NextStart(off, m);
        ReadStep(a0, b0, l0, logged, outstanding, offset, tot, m, n);
        var piece;
        piece, ok := ReadBlock(ip, off, m);
        if !ok {
          return;
        }
        Adjacent(Bytes(ip), offset, off, off + m);
        dst := dst + piece;
        tot, off := tot + m, off + m;
      }
    }

    /** One round of readi: m bytes of one block. */
    method ReadBlock(ip: Inode, off: nat, m: nat) returns (piece: seq<Byte>, ok: bool)
      requires Sound(ip) && 0 < m && off % BSIZE + m <= BSIZE && off + m <= ip.size
      modifies this`blocks, this`logged, ip`addrs
      ensures ok ==> blocks == old(blocks) && ip.addrs == old(ip.addrs) && piece == Bytes(ip)[off..off + m]
      ensures ok <==> off / 512 < 138 || (outstanding >= 1 && |old(logged)| < 29)
      ensures ok ==> off / BSIZE < MAXFILE && logged == old(logged) + DeepLeaf(ip.addrs, blocks, off / BSIZE)
    {
      hide Addr, Used, Placed, Unshared, Grew, Unlogged, NoHoles, Content, Traced, Saved, FreeBlocks, SameBelow, Missing, CanTake, LogAfter;
      NoHoleAt(ip.addrs, blocks, ip.size, off);
      NoneMissing(ip.addrs, blocks, LeafPath(off / BSIZE));
      NoneTaken(sb, FreeBlocks(sb, blocks), logged);
      var addr;
      addr, ok := Bmap(ip, off / BSIZE);
      piece := [];
      if ok {
        InTree(sb, ip.addrs, blocks, LeafPath(off / BSIZE));
        HoleBound(ip.addrs, blocks, ip.size);
        Chunk(ip.addrs, blocks, ip.size, off, m);
        piece := blocks[addr][off % BSIZE..off % BSIZE + m];
      }
    }

    /** iupdate, but for the type and the link count. */
    method Iupdate(ip: Inode) returns (ok: bool)
      requires sb.Ok() && |blocks| == sb.size && Homed(ip)
      modifies this`blocks, this`logged
      ensures ok <==> outstanding >= 1 && |old(logged)| < 29
      ensures |blocks| == sb.size && blocks == old(blocks)[ip.iblock := blocks[ip.iblock]] && Filed(ip)
      // word 2 of the 16 of an inode is its size, words 3 to 15 are its addresses
      ensures GetWord(blocks[ip.iblock], 16 * ip.index + 2) == ip.size
      ensures forall i {:trigger ip.addrs[i]} :: 0 <= i < 13 ==> GetWord(blocks[ip.iblock], 16 * ip.index + 3 + i) == ip.addrs[i]
      ensures forall c :: 0 <= c < sb.size ==> Used(sb, blocks, c) == old(Used(sb, blocks, c))
      ensures SameOthers(old(blocks), blocks, ip.iblock, ip.index)
      ensures logged == old(logged) + if ok then {ip.iblock} else {}
      ensures ok && old(Durable()) ==> Durable()
    {
      hide GetWord, SetWord, Used;
      var dip := 16 * ip.index;
      var x: Block := SetWord(blocks[ip.iblock], dip + 2, ip.size);
      var i := 0;
      while i < NADDRS
        modifies {}
        invariant 0 <= i <= NADDRS && GetWord(x, dip + 2) == ip.size
        invariant forall w :: dip + 3 <= w < dip + 3 + i ==> GetWord(x, w) == ip.addrs[w - dip - 3]
        invariant SameOthers(blocks, blocks[ip.iblock := x], ip.iblock, ip.index)
      {
        SetWordAt(x, dip + 3 + i, ip.addrs[i]);
        x := SetWord(x, dip + 3 + i, ip.addrs[i]);
        i := i + 1;
      }
      MetaBits(sb, blocks, blocks[ip.iblock := x], ip.iblock);
      blocks := blocks[ip.iblock := x];
      ok := LogWrite(ip.iblock);
    }

    /** writei on a regular file: r is its result; !ok stands for a panic. */
    method Writei(ip: Inode, src: seq<Byte>, offset: nat, n: nat) returns (r: int, ok: bool)
      requires Sound(ip) && offset < U32 && n < U32 && n <= |src|
      modifies this`blocks, this`logged, ip`addrs, ip`size
      ensures ok ==> Sound(ip)
      ensures ok ==> (r == -1 <==> offset > old(ip.size) || offset + n > 2113674 * 512) && (r == -1 || r == n)
      ensures ok && r == -1 ==> blocks == old(blocks) && ip.addrs == old(ip.addrs) && ip.size == old(ip.size) && logged == old(logged)
      ensures ok && r != -1 ==> ip.size == (if n == 0 then old(ip.size) else Max(old(ip.size), offset + n))
      ensures ok && r != -1 ==> Bytes(ip) == Splice(old(Bytes(ip)), offset, src[..n])
      // a file without slots beyond its size stays one
      ensures ok && old(Snug(ip.addrs, blocks, ip.size)) ==> Snug(ip.addrs, blocks, ip.size)
      // no data block of another file is touched
      ensures ok ==> Spares(sb, old(ip.addrs), old(blocks), ip.addrs, blocks)
      // what is logged are the blocks taken, their bitmap blocks, the data blocks written, the singly indirect one and the inode
      ensures ok && r != -1 ==>
        LogWithin(sb, old(FreeBlocks(sb, blocks)), FreeBlocks(sb, blocks), old(logged), logged, ip.addrs, blocks, offset / BSIZE, WriteEnd(offset, n), {ip.iblock})
      // the on-disk inode keeps agreeing: it may be skipped when the size stays, for then no address has changed
      ensures ok && old(Filed(ip)) ==> Filed(ip)
      ensures ok && ip.size == old(ip.size) ==> ip.addrs == old(ip.addrs)
      // the next commit saves all of it exactly when the index blocks that bmap forgets had been logged before
      ensures ok && r != -1 && old(Durable()) ==>
        (Durable() <==> UnloggedIn(old(ip.addrs), old(blocks), offset / BSIZE, WriteEnd(offset, n)) <= old(logged))
      ensures |blocks| == sb.size && (!ok ==> Stuck())
      ensures !ok ==> outstanding == 0 || |logged| >= 29 || forall c :: 0 <= c < sb.size ==> Used(sb, blocks, c)
    {
      hide Addr, Used, Placed, Unshared, Grew, Unlogged, LeafPath, NoHoles, Content, Splice, Overwrite, Found, Spares, Traced, UnloggedIn, Outgrew, Stored, FreeBlocks, Saved, WriteEnd, Snug, LogWithin, GetWord;
      ok := true;
      SparesNone(sb, ip.addrs, blocks);
      HoleBound(ip.addrs, blocks, ip.size);
      if offset > ip.size || (offset + n) % U32 < offset {
        return -1, ok;
      }
      if offset + n > MAXBYTES {
        return -1, ok;
      }
      ghost var a0, b0, l0, lo := ip.addrs, blocks, logged, offset / BSIZE;
      EndBound(offset, n);
      ok := WriteBlocks(ip, src, offset, n);
      r := n;
      SomeFree(sb, blocks);
      if !ok {
        return;
      }
      ghost var b1, l1 := blocks, logged;
      if n > 0 && offset + n > ip.size {
        ok := SaveSize(ip, offset + n, a0, b0, l0, UnloggedIn(a0, b0, lo, WriteEnd(offset, n)));
      }
      if ok { WithinInode(sb, FreeBlocks(sb, b0), l0, ip.addrs, b1, l1, blocks, logged, lo, WriteEnd(offset, n), ip.iblock); }
      if ok {
        Covered(ip.addrs, blocks, Max(ip.size, offset + n), lo, WriteEnd(offset, n), offset + n);
        WrittenIff(sb, a0, b0, l0, ip.addrs, blocks, logged, committed, lo, WriteEnd(offset, n));
      }
    }

    /** The loop of writei. */
    method WriteBlocks(ip: Inode, src: seq<Byte>, offset: nat, n: nat) returns (ok: bool)
      requires Sound(ip) && n <= |src| && offset <= ip.size && offset + n <= MAXBYTES
      modifies this`blocks, this`logged, ip`addrs
      ensures |blocks| == sb.size && (!ok ==> Stuck())
      ensures ok ==> Valid() && TreeOk(sb, ip.addrs, blocks) && NoHoles(ip.addrs, blocks, Max(ip.size, offset + n))
      ensures ok ==> Max(ip.size, offset + n) <= MAXBYTES &&
                     Content(ip.addrs, blocks, Max(ip.size, offset + n)) == Splice(old(Bytes(ip)), offset, src[..n])
      ensures ok && old(Snug(ip.addrs, blocks, ip.size)) ==> Snug(ip.addrs, blocks, Max(ip.size, offset + n))
      ensures ok && offset + n <= ip.size ==> ip.addrs == old(ip.addrs)
      ensures ok ==> Spares(sb, old(ip.addrs), old(blocks), ip.addrs, blocks) && Outgrew(sb, old(ip.addrs), old(blocks), ip.addrs, blocks)
      ensures ok ==> WriteEnd(offset, n) <= MAXFILE &&
                     Traced(sb, old(ip.addrs), old(blocks), old(logged), blocks, logged,
                            UnloggedIn(old(ip.addrs), old(blocks), offset / BSIZE, WriteEnd(offset, n)))
      ensures ok ==> SameBelow(sb.bmapstart, old(blocks), blocks)
      ensures ok ==> LogWithin(sb, old(FreeBlocks(sb, blocks)), FreeBlocks(sb, blocks), old(logged), logged, ip.addrs, blocks, offset / BSIZE, WriteEnd(offset, n), {})
    {
      hide Addr, Used, Placed, Unshared, Grew, Unlogged, LeafPath, NoHoles, Content, Splice, Overwrite, Found, Spares, Traced, UnloggedIn, Outgrew, Stored, FreeBlocks, Saved, WriteEnd, SameBelow, Snug, LogWithin;
      WithinNone(sb, FreeBlocks(sb, blocks), logged, ip.addrs, blocks, offset / BSIZE, WriteEnd(offset, 0));
      ok := true;
      ghost var c0, a0, b0, l0, lo := Bytes(ip), ip.addrs, blocks, logged, offset / BSIZE;
      SparesNone(sb, a0, b0);
      SameSelf(sb.bmapstart, b0);
      HoleBound(a0, b0, ip.size);
      SpliceNone(c0, offset, src);
      EndBound(offset, n);
      OutgrewNone(sb, a0, b0);
      if lo < MAXFILE { UnloggedMore(a0, b0, lo, lo); }
      TracedNone(sb, a0, b0, l0, UnloggedIn(a0, b0, lo, WriteEnd(offset, 0)));
      var tot, off := 0, offset;
      while tot < n
        invariant 0 <= tot <= n && off == offset + tot && (tot == 0 || tot == n || off % BSIZE == 0)
        invariant Valid() && TreeOk(sb, ip.addrs, blocks) && NoHoles(ip.addrs, blocks, Max(ip.size, off))
        invariant Content(ip.addrs, blocks, Max(ip.size, off)) == Splice(c0, offset, src[..tot])
        invariant off <= ip.size ==> ip.addrs == a0
        invariant Snug(a0, b0, ip.size) ==> Snug(ip.addrs, blocks, Max(ip.size, off))
        invariant Spares(sb, a0, b0, ip.addrs, blocks) && Outgrew(sb, a0, b0, ip.addrs, blocks)
        invariant Traced(sb, a0, b0, l0, blocks, logged, UnloggedIn(a0, b0, lo, WriteEnd(offset, tot)))
        invariant SameBelow(sb.bmapstart, b0, blocks)
        invariant LogWithin(sb, FreeBlocks(sb, b0), FreeBlocks(sb, blocks), l0, logged, ip.addrs, blocks, lo, WriteEnd(offset, tot), {})
      {
        ghost var b1 := blocks;
        var m := Min(n - tot, BSIZE - off % BSIZE);
        NextBlock(offset, tot, m);
        ok := WriteBlock(ip, off, src[tot..tot + m], Max(ip.size, off), a0, b0, l0, lo);
        if !ok {
          return;
        }
        SpliceTwice(c0, offset, src, tot, m);
        SameTwice(sb.bmapstart, b0, b1, blocks);
        tot, off := tot + m, off + m;
      }
    }

    /** The end of writei when the file has grown: its size is set and the inode saved. */
    method SaveSize(ip: Inode, off: Word, ghost a0: seq<Word>, ghost b0: seq<Block>, ghost l0: set<nat>, ghost u: set<nat>)
      returns (ok: bool)
      requires Valid() && Homed(ip) && TreeOk(sb, ip.addrs, blocks) && NoHoles(ip.addrs, blocks, off) && off <= MAXBYTES
      requires Sized(sb, a0, b0) && Spares(sb, a0, b0, ip.addrs, blocks) && Outgrew(sb, a0, b0, ip.addrs, blocks)
      requires Traced(sb, a0, b0, l0, blocks, logged, u)
      modifies this`blocks, this`logged, ip`size
      ensures |blocks| == sb.size && (!ok ==> Stuck())
      ensures !ok ==> outstanding == 0 || |logged| >= 29
      ensures ok ==> ip.size == off && Sound(ip) && Filed(ip) && Bytes(ip) == old(Content(ip.addrs, blocks, off))
      ensures ok && old(Snug(ip.addrs, blocks, off)) ==> Snug(ip.addrs, blocks, off)
      ensures ok ==> Spares(sb, a0, b0, ip.addrs, blocks) && Outgrew(sb, a0, b0, ip.addrs, blocks)
      ensures ok ==> Traced(sb, a0, b0, l0, blocks, logged, u)
      ensures ok ==> ip.iblock < |blocks| && blocks == old(blocks)[ip.iblock := blocks[ip.iblock]] && logged == old(logged) + {ip.iblock}
    {
      hide Addr, Used, Placed, Unshared, NoHoles, Content, Spares, Traced, Outgrew, Stored, FreeBlocks, Saved, Snug;
      ghost var b1, l1 := blocks, logged;
      ip.size := off;
      ok := Iupdate(ip);
      if ok { Filing(sb, a0, b0, l0, ip.addrs, b1, l1, blocks, ip.iblock, off, u); }
    }

    /** One round of writei: s goes into the block at off, the file being size bytes long so far. */
    method WriteBlock(ip: Inode, off: nat, s: seq<Byte>, ghost size: nat,
                      ghost a0: seq<Word>, ghost b0: seq<Block>, ghost l0: set<nat>, ghost lo: nat) returns (ok: bool)
      requires Valid() && TreeOk(sb, ip.addrs, blocks) && NoHoles(ip.addrs, blocks, size) && size <= MAXBYTES
      requires off <= size && 0 < |s| && off % BSIZE + |s| <= BSIZE && off + |s| <= MAXBYTES && lo <= off / BSIZE < MAXFILE
      requires Sized(sb, a0, b0) && Spares(sb, a0, b0, ip.addrs, blocks) && Outgrew(sb, a0, b0, ip.addrs, blocks)
      requires Traced(sb, a0, b0, l0, blocks, logged, UnloggedIn(a0, b0, lo, off / BSIZE))
      modifies this`blocks, this`logged, ip`addrs
      ensures |blocks| == sb.size && (!ok ==> Stuck())
      ensures ok ==> Valid() && TreeOk(sb, ip.addrs, blocks) && NoHoles(ip.addrs, blocks, Max(size, off + |s|))
      ensures ok ==> Content(ip.addrs, blocks, Max(size, off + |s|)) == Splice(old(Content(ip.addrs, blocks, size)), off, s)
      ensures ok && old(Snug(ip.addrs, blocks, size)) ==> Snug(ip.addrs, blocks, Max(size, off + |s|))
      ensures ok && off < size ==> ip.addrs == old(ip.addrs)
      ensures ok ==> Spares(sb, a0, b0, ip.addrs, blocks) && Outgrew(sb, a0, b0, ip.addrs, blocks)
      ensures ok ==> Traced(sb, a0, b0, l0, blocks, logged, UnloggedIn(a0, b0, lo, off / BSIZE + 1))
      ensures ok ==> SameBelow(sb.bmapstart, old(blocks), blocks)
      ensures ok && old(LogWithin(sb, FreeBlocks(sb, b0), FreeBlocks(sb, blocks), l0, logged, ip.addrs, blocks, lo, off / BSIZE, {})) ==>
        LogWithin(sb, FreeBlocks(sb, b0), FreeBlocks(sb, blocks), l0, logged, ip.addrs, blocks, lo, off / BSIZE + 1, {})
    {
      hide Addr, Used, Placed, Unshared, Grew, Unlogged, LeafPath, NoHoles, Content, Splice, Overwrite, Found, Spares, Traced, UnloggedIn, Outgrew, NotDeep, FreeBlocks, Missing, Saved, Snug, LogWithin, LoggedBy, LastLog;
      ghost var a1, b1, l1 := ip.addrs, blocks, logged;
      if off < size { NoHoleAt(a1, b1, size, off); }
      var addr;
      addr, ok := Bmap(ip, off / BSIZE);
      if ok {
        Round(sb, a0, b0, l0, a1, b1, l1, ip.addrs, blocks, logged, size, off, s, lo);
        WithinRound(sb, FreeBlocks(sb, b0), l0, a1, b1, l1, ip.addrs, blocks, logged, size, off, s, lo);
        blocks := blocks[addr := Overwrite(blocks[addr], off % BSIZE, s)];
        ok := LogWrite(addr);
      }
    }
  }

  /** What writei has written is what readi then returns. */
  method WriteThenRead(fs: Fs, ip: Inode, src: seq<Byte>, offset: nat, n: nat) returns (w: int, r: int, dst: seq<Byte>, ok: bool)
    requires fs.Sound(ip) && offset < U32 && n < U32 && n <= |src|
    modifies fs`blocks, fs`logged, ip`addrs, ip`size
    ensures ok ==> fs.Sound(ip) && (w == -1 <==> offset > old(ip.size) || offset + n > 2113674 * 512)
    ensures ok && w != -1 ==> w == r == n && dst == src[..n] && fs.Bytes(ip) == Splice(old(fs.Bytes(ip)), offset, src[..n])
  {
    hide Splice, Content, NoHoles, Addr, Used, Spares, Snug, Placed, Unshared, Unlogged, UnloggedIn, Saved, Stored, FreeBlocks, Readable, DeepRead;
    w, ok := fs.Writei(ip, src, offset, n);
    r, dst := -1, [];
    if ok {
      if w != -1 { ReadBack(old(fs.Bytes(ip)), offset, src[..n]); }
      r, dst, ok := fs.Readi(ip, offset, n);
    }
  }

  /** Slot p[..n + 1] on the way is found or filled. */
  lemma NextLevel(sb: Super, a0: seq<Word>, b0: seq<Block>, l0: set<nat>, f0: set<nat>, b1: seq<Block>, l1: set<nat>, f1: set<nat>, k: nat,
                  b2: seq<Block>, l2: set<nat>, f2: set<nat>, p: Path, n: nat, h: nat, th: bool, c: nat, tc: bool)
    requires TreeOk(sb, a0, b0) && IsPath(p) && p[0] > NDIRECT && 1 <= n < |p| && IsPath(p[..n]) && IsPath(p[..n + 1]) && |b2| == sb.size
    requires Traced(sb, a0, b0, l0, b1, l1, Unlogged(a0, b0, p))
    requires Found(sb, a0, b0, p[..n], h, th) && TakenSet(sb, th, h) <= l1 && Found(sb, a0, b0, p[..n + 1], c, tc)
    requires forall x :: 0 <= x < sb.size && x !in TakenSet(sb, tc, c) + (if tc then {h} else {}) ==> b2[x] == b1[x]
    requires forall x :: 0 <= x < sb.size && Used(sb, b2, x) && !Used(sb, b1, x) ==> x in TakenSet(sb, tc, c)
    requires Upto(sb, f0, l0, k, f1, l1) && (tc ==> First(f1, c) && CanTake(sb, f1, l1, 1))
    requires f2 == f1 - (if tc then {c} else {}) && l2 == l1 + TakenSet(sb, tc, c)
    ensures Traced(sb, a0, b0, l0, b2, l2, Unlogged(a0, b0, p)) && TakenSet(sb, tc, c) <= l2
    ensures Upto(sb, f0, l0, k + (if Addr(a0, b0, p[..n + 1]) == 0 then 1 else 0), f2, l2)
    ensures tc <==> Addr(a0, b0, p[..n + 1]) == 0
  {
    hide Addr, Used, Traced, Placed, Unshared, Unlogged, TakenSet, Found, NotDeep, CanTake, FreeAfter, LogAfter, Upto;
    LevelTraced(sb, a0, b0, l0, b1, l1, b2, p, n, h, th, c, tc);
    UptoStep(sb, f0, l0, k, f1, l1, tc, c, f2, l2);
  }

  lemma LoggedMore(sb: Super, f0: set<nat>, f1: set<nat>, l0: set<nat>, l: set<nat>, x: set<nat>)
    requires f1 <= f0 && l == l0 + NewLog(sb, f0, f1)
    ensures LoggedBy(sb, f0, f1, l0, l + x, x) && (x == {} ==> LoggedBy(sb, f0, f1, l0, l, x))
  {
    hide NewLog;
    assert l + {} == l;
  }

  lemma LoggedDirect(sb: Super, f0: set<nat>, f1: set<nat>, l0: set<nat>, l1: set<nat>, c: nat, taken: bool)
    requires f1 == f0 - (if taken then {c} else {}) && (taken ==> First(f0, c)) && l1 == l0 + TakenSet(sb, taken, c)
    ensures LoggedBy(sb, f0, f1, l0, l1, {})
  {
    hide NewLog;
    if taken {
      NewLogOne(sb, f0, c);
    } else {
      NewLogNone(sb, f0);
      assert f1 == f0;
    }
  }

  lemma LastIs(sb: Super, a0: seq<Word>, b0: seq<Block>, a1: seq<Word>, b1: seq<Block>, p: Path)
    requires Grew(sb, a0, b0, a1, b1, p) && IsPath(p)
    ensures |a0| == |a1| == NADDRS
    ensures p[0] < NDIRECT ==> LastLog(a0, b0, a1, b1, p) == {}
    ensures p[0] == NDIRECT ==> LastLog(a0, b0, a1, b1, p) == if Addr(a0, b0, p) != 0 then {} else {Addr(a1, b1, [NDIRECT])}
    ensures p[0] > NDIRECT ==> LastLog(a0, b0, a1, b1, p) == {Addr(a1, b1, p)}
  {
  }

  /** Slot p of the singly indirect block is found or filled, and that block will be logged if it is filled. */
  lemma SingleLevel(sb: Super, a0: seq<Word>, b0: seq<Block>, l0: set<nat>, f0: set<nat>, a1: seq<Word>, b1: seq<Block>, l1: set<nat>,
                    f1: set<nat>, k: nat, b2: seq<Block>, l2: set<nat>, f2: set<nat>, p: Path, h: nat, c: nat, tc: bool, m: nat)
    requires TreeOk(sb, a0, b0) && IsLeaf(p) && |p| == 2 && p[0] == NDIRECT && |b2| == sb.size
    requires Grew(sb, a0, b0, a1, b1, Parent(p)) && Grew(sb, a0, b0, a1, b2, p) && h == Addr(a1, b1, [NDIRECT])
    requires Traced(sb, a0, b0, l0, b1, l1, Unlogged(a0, b0, p)) && NotDeep(a0, b0, {h}) && Found(sb, a0, b0, p, c, tc)
    requires forall x :: 0 <= x < sb.size && x !in TakenSet(sb, tc, c) + (if tc then {h} else {}) ==> b2[x] == b1[x]
    requires forall x :: 0 <= x < sb.size && Used(sb, b2, x) && !Used(sb, b1, x) ==> x in TakenSet(sb, tc, c)
    requires Upto(sb, f0, l0, k, f1, l1) && m == k + (if Addr(a0, b0, p) == 0 then 1 else 0)
    requires tc ==> First(f1, c) && CanTake(sb, f1, l1, 1)
    requires f2 == f1 - (if tc then {c} else {}) && l2 == l1 + TakenSet(sb, tc, c)
    ensures var l := if tc then l2 + {h} else l2;
            |a1| == NADDRS && Traced(sb, a0, b0, l0, b2, l, Unlogged(a0, b0, p)) && LoggedBy(sb, f0, f2, l0, l, LastLog(a0, b0, a1, b2, p))
    ensures CanTake(sb, f0, l0, m) && l2 == LogAfter(sb, f0, l0, m) && (m == 0 ==> l2 == l0)
    ensures tc <==> Addr(a0, b0, p) == 0
  {
    hide Addr, Used, Grew, Traced, Placed, Unshared, Unlogged, TakenSet, Found, NotDeep, CanTake, FreeAfter, LogAfter, Upto, NewLog, LoggedBy, LastLog;
    var u := Unlogged(a0, b0, p);
    FoundMeans(sb, a0, b0, p, c, tc);
    UptoStep(sb, f0, l0, k, f1, l1, tc, c, f2, l2);
    UptoMeans(sb, f0, l0, m, f2, l2);
    LastIs(sb, a0, b0, a1, b2, p);
    RootSame(a1, b1, b2, NDIRECT);
    NoneTaken(sb, f0, l0);
    if tc {
      LogTraced(sb, a0, b0, l0, b1, l1, u, h);
      SlotTraced(sb, a0, b0, l0, b1, l1 + {h}, b2, p, c, tc, {h}, u);
      assert l2 + {h} == l1 + {h} + TakenSet(sb, tc, c);
      LoggedMore(sb, f0, f2, l0, l2, {h});
    } else {
      SlotTraced(sb, a0, b0, l0, b1, l1, b2, p, c, tc, {}, u);
      LoggedMore(sb, f0, f2, l0, l2, {});
    }
  }

  lemma RootSame(a: seq<Word>, b1: seq<Block>, b2: seq<Block>, r: nat)
    requires |a| == NADDRS && r < NADDRS
    ensures Addr(a, b1, [r]) == Addr(a, b2, [r])
  {
  }

  /** The last slot on the way to leaf p is found or filled, and its block c will be logged. */
  lemma LastLevel(sb: Super, a0: seq<Word>, b0: seq<Block>, l0: set<nat>, f0: set<nat>, b1: seq<Block>, l1: set<nat>, f1: set<nat>, k: nat,
                  b2: seq<Block>, l2: set<nat>, f2: set<nat>, p: Path, h: nat, th: bool, c: nat, tc: bool, m: nat)
    requires TreeOk(sb, a0, b0) && IsLeaf(p) && |p| > 1 && p[0] > NDIRECT && |b2| == sb.size
    requires Traced(sb, a0, b0, l0, b1, l1, Unlogged(a0, b0, p))
    requires Found(sb, a0, b0, Parent(p), h, th) && TakenSet(sb, th, h) <= l1 && Found(sb, a0, b0, p, c, tc)
    requires forall x :: 0 <= x < sb.size && x !in TakenSet(sb, tc, c) + (if tc then {h} else {}) ==> b2[x] == b1[x]
    requires forall x :: 0 <= x < sb.size && Used(sb, b2, x) && !Used(sb, b1, x) ==> x in TakenSet(sb, tc, c)
    requires Upto(sb, f0, l0, k, f1, l1) && m == k + (if Addr(a0, b0, p) == 0 then 1 else 0)
    requires tc ==> First(f1, c) && CanTake(sb, f1, l1, 1)
    requires f2 == f1 - (if tc then {c} else {}) && l2 == l1 + TakenSet(sb, tc, c)
    ensures Traced(sb, a0, b0, l0, b2, l2 + {c}, Unlogged(a0, b0, p))
    ensures CanTake(sb, f0, l0, m) && l2 == LogAfter(sb, f0, l0, m) && (m == 0 ==> l2 == l0)
    ensures LoggedBy(sb, f0, f2, l0, l2 + {c}, {c})
    ensures tc <==> Addr(a0, b0, p) == 0
  {
    hide Addr, Used, Traced, Placed, Unshared, Unlogged, TakenSet, Found, NotDeep, CanTake, FreeAfter, LogAfter, Upto, NewLog;
    assert p[..|p| - 1] == Parent(p) && p[..|p|] == p && p[..|p| - 1 + 1] == p;
    NextLevel(sb, a0, b0, l0, f0, b1, l1, f1, k, b2, l2, f2, p, |p| - 1, h, th, c, tc);
    UptoMeans(sb, f0, l0, m, f2, l2);
    TakenNotDeep(sb, a0, b0, p, c, tc);
    LogTraced(sb, a0, b0, l0, b2, l2, Unlogged(a0, b0, p), c);
    NoneTaken(sb, f0, l0);
  }

  /** What such a round comes to: bmap takes tree 1 to tree 2, then s is stored at off and the block is logged. */
  lemma Round(sb: Super, a0: seq<Word>, b0: seq<Block>, l0: set<nat>, a1: seq<Word>, b1: seq<Block>, l1: set<nat>,
              a2: seq<Word>, b2: seq<Block>, l2: set<nat>, size: nat, off: nat, s: seq<Byte>, lo: nat)
    requires size <= MAXBYTES && off <= size && 0 < |s| && off % BSIZE + |s| <= BSIZE && off + |s| <= MAXBYTES
    requires lo <= off / BSIZE < MAXFILE && Sized(sb, a0, b0) && Sized(sb, a1, b1) && NoHoles(a1, b1, size)
    requires Spares(sb, a0, b0, a1, b1) && Outgrew(sb, a0, b0, a1, b1)
    requires Traced(sb, a0, b0, l0, b1, l1, UnloggedIn(a0, b0, lo, off / BSIZE))
    requires var p := LeafPath(off / BSIZE);
             && Grew(sb, a1, b1, a2, b2, p) && Addr(a2, b2, p) != 0
             && (Addr(a1, b1, p) != 0 ==> b2 == b1 && a2 == a1)
             && Traced(sb, a1, b1, l1, b2, l2, Unlogged(a1, b1, p))
    ensures var c := Addr(a2, b2, LeafPath(off / BSIZE));
            sb.bmapstart < sb.lo <= c < sb.size && |b2| == sb.size &&
            var b3 := b2[c := Overwrite(b2[c], off % BSIZE, s)];
            && TreeOk(sb, a2, b3) && NoHoles(a2, b3, Max(size, off + |s|))
            && Content(a2, b3, Max(size, off + |s|)) == Splice(Content(a1, b1, size), off, s)
            && Spares(sb, a0, b0, a2, b3) && Outgrew(sb, a0, b0, a2, b3)
            && Traced(sb, a0, b0, l0, b3, l2 + {c}, UnloggedIn(a0, b0, lo, off / BSIZE + 1))
            && (forall d :: 0 <= d < sb.size ==> Used(sb, b3, d) == Used(sb, b2, d))
            && (Snug(a1, b1, size) ==> Snug(a2, b3, Max(size, off + |s|)))
  {
    hide Addr, Used, Placed, Unshared, Grew, Unlogged, LeafPath, NoHoles, Content, Splice, Overwrite, Spares, Traced, UnloggedIn, Outgrew, NotDeep, Snug;
    var p := LeafPath(off / BSIZE);
    GrewMeans(sb, a1, b1, a2, b2, p);
    var c := Addr(a2, b2, p);
    InTree(sb, a2, b2, p);
    var x := Overwrite(b2[c], off % BSIZE, s);
    WriteChunk(sb, a1, b1, a2, b2, size, off, s);
    SparesMore(sb, a0, b0, a1, b1, a2, b2, p, x);
    TracedMap(sb, a0, b0, l0, a1, b1, l1, b2, l2, p, UnloggedIn(a0, b0, lo, off / BSIZE));
    UnloggedMore(a0, b0, lo, off / BSIZE);
    OutgrewMap(sb, a0, b0, a1, b1, a2, b2, p);
    LeafNotDeep(sb, a0, b0, a2, b2, p);
    DataWritten(sb, a2, b2, p, x);
    OutgrewStore(sb, a0, b0, a2, b2, b2[c := x]);
    if Snug(a1, b1, size) { SnugMore(sb, a1, b1, a2, b2, b2[c := x], size, off, |s|); }
    TracedStep(sb, a0, b0, l0, b2, l2, b2[c := x], {c}, {c}, UnloggedIn(a0, b0, lo, off / BSIZE + 1));
  }

  lemma WithinNone(sb: Super, f: set<nat>, l: set<nat>, a: seq<Word>, b: seq<Block>, lo: nat, hi: nat)
    requires |a| == NADDRS
    ensures LogWithin(sb, f, f, l, l, a, b, lo, hi, {})
  {
    hide Addr;
  }

  /** One round of writei, as Round has it, logs no more. */
  lemma WithinRound(sb: Super, f0: set<nat>, l0: set<nat>, a1: seq<Word>, b1: seq<Block>, l1: set<nat>,
                    a2: seq<Word>, b2: seq<Block>, l2: set<nat>, size: nat, off: nat, s: seq<Byte>, lo: nat)
    requires off % BSIZE + |s| <= BSIZE && lo <= off / BSIZE < MAXFILE && off <= size && |a1| == NADDRS && NoHoles(a1, b1, size)
    requires var p := LeafPath(off / BSIZE);
             && Grew(sb, a1, b1, a2, b2, p) && Addr(a2, b2, p) != 0
             && LoggedBy(sb, FreeBlocks(sb, b1), FreeBlocks(sb, b2), l1, l2, LastLog(a1, b1, a2, b2, p))
    ensures var c := Addr(a2, b2, LeafPath(off / BSIZE));
            c < |b2| == sb.size && |b1| == sb.size &&
            var b3 := b2[c := Overwrite(b2[c], off % BSIZE, s)];
            LogWithin(sb, f0, FreeBlocks(sb, b1), l0, l1, a1, b1, lo, off / BSIZE, {}) ==>
              LogWithin(sb, f0, FreeBlocks(sb, b3), l0, l2 + {c}, a2, b3, lo, off / BSIZE + 1, {})
  {
    hide Addr, Used, LeafPath, Grew, Overwrite, NoHoles, LogWithin, LoggedBy, LastLog, FreeBlocks;
    var p := LeafPath(off / BSIZE);
    GrewMeans(sb, a1, b1, a2, b2, p);
    var c := Addr(a2, b2, p);
    var x := Overwrite(b2[c], off % BSIZE, s);
    DataWritten(sb, a2, b2, p, x);
    SameFree(sb, b2, b2[c := x]);
    if LogWithin(sb, f0, FreeBlocks(sb, b1), l0, l1, a1, b1, lo, off / BSIZE, {}) {
      LeavesMore(sb, a1, b1, a2, b2, b2[c := x], size, off, lo);
      LastWithin(sb, a1, b1, a2, b2, p);
      WithinMore(sb, f0, FreeBlocks(sb, b1), FreeBlocks(sb, b2), l0, l1, l2, a1, b1, a2, b2[c := x], lo, off / BSIZE,
                 LastLog(a1, b1, a2, b2, p), c);
    }
  }

  lemma SameFree(sb: Super, b1: seq<Block>, b2: seq<Block>)
    requires sb.Ok() && |b1| == |b2| == sb.size && forall d :: 0 <= d < sb.size ==> Used(sb, b2, d) == Used(sb, b1, d)
    ensures FreeBlocks(sb, b2) == FreeBlocks(sb, b1)
  {
    hide Used;
  }

  lemma LeavesMore(sb: Super, a1: seq<Word>, b1: seq<Block>, a2: seq<Word>, b2: seq<Block>, b3: seq<Block>, size: nat, off: nat, lo: nat)
    requires off / BSIZE < MAXFILE && off <= size && Grew(sb, a1, b1, a2, b2, LeafPath(off / BSIZE)) && NoHoles(a1, b1, size)
    requires forall q :: IsPath(q) ==> Addr(a2, b3, q) == Addr(a2, b2, q)
    ensures Leaves(a1, b1, lo, off / BSIZE) <= Leaves(a2, b3, lo, off / BSIZE + 1) && Single(a1, b1) <= Single(a2, b3)
    ensures Single(a2, b3) == Single(a2, b2)
    ensures lo <= off / BSIZE ==> Addr(a2, b2, LeafPath(off / BSIZE)) in Leaves(a2, b3, lo, off / BSIZE + 1)
  {
    hide Addr, Used, LeafPath, Grew;
    GrewMeans(sb, a1, b1, a2, b2, LeafPath(off / BSIZE));
    GrewKeepsSlots(sb, a1, b1, a2, b2, LeafPath(off / BSIZE));
    forall bn | lo <= bn < off / BSIZE ensures Addr(a2, b3, LeafPath(bn)) == Addr(a1, b1, LeafPath(bn)) {
      assert bn * BSIZE < off;
    }
  }

  lemma LastWithin(sb: Super, a1: seq<Word>, b1: seq<Block>, a2: seq<Word>, b2: seq<Block>, p: Path)
    requires Grew(sb, a1, b1, a2, b2, p) && IsLeaf(p) && Addr(a2, b2, p) != 0
    ensures |a1| == |a2| == NADDRS && LastLog(a1, b1, a2, b2, p) <= Single(a2, b2) + {Addr(a2, b2, p)}
  {
    hide Addr, Grew, Used;
    GrewMeans(sb, a1, b1, a2, b2, p);
    if p[0] == NDIRECT {
      assert p[..1] == [NDIRECT];
      Ancestors(a2, b2, p, 1);
    }
  }

  lemma WithinMore(sb: Super, f0: set<nat>, f1: set<nat>, f2: set<nat>, l0: set<nat>, l1: set<nat>, l2: set<nat>,
                   a1: seq<Word>, b1: seq<Block>, a2: seq<Word>, b2: seq<Block>, lo: nat, bn: nat, x: set<nat>, c: nat)
    requires |a1| == |a2| == NADDRS && LogWithin(sb, f0, f1, l0, l1, a1, b1, lo, bn, {}) && LoggedBy(sb, f1, f2, l1, l2, x)
    requires Leaves(a1, b1, lo, bn) <= Leaves(a2, b2, lo, bn + 1) && Single(a1, b1) <= Single(a2, b2)
    requires x <= Single(a2, b2) + {c} && c in Leaves(a2, b2, lo, bn + 1)
    ensures LogWithin(sb, f0, f2, l0, l2 + {c}, a2, b2, lo, bn + 1, {})
  {
    hide NewLog, Leaves, Single;
    NewLogTwice(sb, f0, f1, f2);
  }

  lemma WithinInode(sb: Super, f0: set<nat>, l0: set<nat>, a: seq<Word>, b1: seq<Block>, l1: set<nat>, b2: seq<Block>, l2: set<nat>,
                    lo: nat, hi: nat, i: nat)
    requires sb.Ok() && |b1| == |b2| == sb.size && |a| == NADDRS && TreeOk(sb, a, b1) && i < sb.bmapstart
    requires b2 == b1[i := b2[i]] && l2 <= l1 + {i} && LogWithin(sb, f0, FreeBlocks(sb, b1), l0, l1, a, b1, lo, hi, {})
    ensures LogWithin(sb, f0, FreeBlocks(sb, b2), l0, l2, a, b2, lo, hi, {i})
  {
    hide Addr, Used, NewLog, FreeBlocks;
    MetaWrite(sb, a, b1, i, b2[i]);
    SameFree(sb, b1, b2);
    assert Leaves(a, b2, lo, hi) == Leaves(a, b1, lo, hi);
  }

  lemma {:induction false} LeafCount(a: seq<Word>, b: seq<Block>, lo: nat, hi: nat)
    requires |a| == NADDRS && lo <= hi <= MAXFILE
    ensures |Leaves(a, b, lo, hi)| <= hi - lo
    decreases hi - lo
  {
    hide Addr, LeafPath;
    if lo == hi {
      assert Leaves(a, b, lo, hi) == {};
    } else {
      LeafCount(a, b, lo, hi - 1);
      assert Leaves(a, b, lo, hi) == Leaves(a, b, lo, hi - 1) + {Addr(a, b, LeafPath(hi - 1))};
    }
  }

  /** How many log entries a write adds: one for each block written and each index block taken, one for each bitmap block
      of those taken, and two. */
  lemma WriteLogSize(sb: Super, f0: set<nat>, f1: set<nat>, l0: set<nat>, l1: set<nat>, a: seq<Word>, b: seq<Block>, lo: nat, hi: nat, i: nat)
    requires |a| == NADDRS && lo <= hi <= MAXFILE && LogWithin(sb, f0, f1, l0, l1, a, b, lo, hi, {i}) && forall c :: c in f0 ==> c < sb.size
    ensures |l1 - l0| <= (hi - lo) + |f0 - f1 - Leaves(a, b, lo, hi)| + Min(|f0 - f1|, sb.size / BPB + 1) + 2
  {
    hide Addr, LeafPath, Leaves, MapsOf;
    var leaves, maps := Leaves(a, b, lo, hi), MapsOf(sb, f0 - f1);
    LeafCount(a, b, lo, hi);
    MapCount(sb, f0 - f1);
    var u := leaves + (f0 - f1 - leaves) + maps + Single(a, b) + {i};
    assert |Single(a, b)| <= 1 by {
      assert Single(a, b) == {} || Single(a, b) == {Addr(a, b, [NDIRECT])};
    }
    assert l1 - l0 <= u;
    Bio.SubsetSize(l1 - l0, u);
  }

  /** Writing the inode block i changes neither tree nor bytes, and it is logged. */
  lemma Filing(sb: Super, a0: seq<Word>, b0: seq<Block>, l0: set<nat>, a1: seq<Word>, b1: seq<Block>, l1: set<nat>,
               b2: seq<Block>, i: nat, size: nat, u: set<nat>)
    requires Spares(sb, a0, b0, a1, b1) && Outgrew(sb, a0, b0, a1, b1) && Traced(sb, a0, b0, l0, b1, l1, u)
    requires Sized(sb, a1, b1) && i < sb.bmapstart && |b2| == |b1| && b2 == b1[i := b2[i]] && NoHoles(a1, b1, size)
    ensures TreeOk(sb, a1, b2) && size <= MAXBYTES && NoHoles(a1, b2, size) && Content(a1, b2, size) == Content(a1, b1, size)
    ensures Spares(sb, a0, b0, a1, b2) && Outgrew(sb, a0, b0, a1, b2) && Traced(sb, a0, b0, l0, b2, l1 + {i}, u)
    ensures Snug(a1, b1, size) ==> Snug(a1, b2, size)
  {
    hide Addr, Used, Placed, Unshared, NotDeep, NoHoles, Content, Traced, Spares, Snug;
    HoleBound(a1, b1, size);
    MetaWrite(sb, a1, b1, i, b2[i]);
    SameBytes(sb, a1, b1, b2, size);
    SnugSame(a1, b1, b2, size);
    MetaNotDeep(sb, a0, b0, i);
    TracedStep(sb, a0, b0, l0, b1, l1, b2, {i}, {i}, u);
    OutgrewStore(sb, a0, b0, a1, b1, b2);
    SparesMeta(sb, a0, b0, a1, b1, b2);
  }

  lemma SameTwice(n: nat, b1: seq<Block>, b2: seq<Block>, b3: seq<Block>)
    requires SameBelow(n, b1, b2) && SameBelow(n, b2, b3)
    ensures SameBelow(n, b1, b3)
  {
  }

  lemma Adjacent(c: seq<Byte>, i: nat, j: nat, k: nat)
    requires i <= j <= k <= |c|
    ensures c[i..j] + c[j..k] == c[i..k]
  {
  }

  lemma NoneMissing(addrs: seq<Word>, blocks: seq<Block>, p: Path)
    requires |addrs| == NADDRS && IsPath(p) && Addr(addrs, blocks, p) != 0
    ensures Missing(addrs, blocks, p) == 0
  {
  }

  /** The block that bmap logs when it finds file block bn: a data block beyond the singly indirect ones. */
  ghost function DeepLeaf(addrs: seq<Word>, blocks: seq<Block>, bn: nat): set<nat>
    requires |addrs| == NADDRS && bn < MAXFILE
  {
    if bn < NDIRECT + NINDIRECT then {} else {Addr(addrs, blocks, LeafPath(bn))}
  }

  /** Those of the file blocks from lo to hi - 1. */
  ghost function DeepRead(addrs: seq<Word>, blocks: seq<Block>, lo: nat, hi: nat): set<nat>
    requires |addrs| == NADDRS
  {
    set bn | lo <= bn < hi && NDIRECT + NINDIRECT <= bn < MAXFILE :: Addr(addrs, blocks, LeafPath(bn))
  }

  /** At each doubly or triply indirect block of the range there is room in the log, next to the blocks logged before
      and those of the range read so far; and there is a transaction. */
  ghost predicate Readable(addrs: seq<Word>, blocks: seq<Block>, l: set<nat>, outstanding: nat, lo: nat, hi: nat)
    requires |addrs| == NADDRS
  {
    forall bn :: lo <= bn < hi && bn >= NDIRECT + NINDIRECT ==> HasRoom(addrs, blocks, l, outstanding, lo, bn)
  }

  ghost predicate HasRoom(addrs: seq<Word>, blocks: seq<Block>, l: set<nat>, outstanding: nat, lo: nat, bn: nat)
    requires |addrs| == NADDRS
  {
    outstanding >= 1 && |l + DeepRead(addrs, blocks, lo, bn)| < ROOM
  }

  lemma ReadableNone(addrs: seq<Word>, blocks: seq<Block>, l: set<nat>, outstanding: nat, lo: nat)
    requires |addrs| == NADDRS
    ensures Readable(addrs, blocks, l, outstanding, lo, lo)
  {
  }

  /** What that comes to where the range ends before block 138, and where it does not. */
  lemma ReadableEnds(addrs: seq<Word>, blocks: seq<Block>, l: set<nat>, outstanding: nat, offset: nat, n: nat)
    requires |addrs| == NADDRS
    ensures offset + n <= 138 * 512 ==> Readable(addrs, blocks, l, outstanding, offset / BSIZE, WriteEnd(offset, n))
    ensures n > 0 && offset + n > 138 * 512 && Readable(addrs, blocks, l, outstanding, offset / BSIZE, WriteEnd(offset, n)) ==> outstanding >= 1
  {
    hide DeepRead;
    var bn := WriteEnd(offset, n) - 1;
    if n > 0 && offset + n > 138 * 512 && Readable(addrs, blocks, l, outstanding, offset / BSIZE, bn + 1) {
      assert offset / BSIZE <= bn && bn >= 138;
      assert HasRoom(addrs, blocks, l, outstanding, offset / BSIZE, bn);
    }
  }

  lemma ReadableMore(addrs: seq<Word>, blocks: seq<Block>, l: set<nat>, outstanding: nat, lo: nat, hi: nat)
    requires |addrs| == NADDRS && lo <= hi
    ensures Readable(addrs, blocks, l, outstanding, lo, hi + 1) <==>
            Readable(addrs, blocks, l, outstanding, lo, hi) &&
            (hi >= NDIRECT + NINDIRECT ==> outstanding >= 1 && |l + DeepRead(addrs, blocks, lo, hi)| < ROOM)
  {
    hide DeepRead;
    assert HasRoom(addrs, blocks, l, outstanding, lo, hi) <==> outstanding >= 1 && |l + DeepRead(addrs, blocks, lo, hi)| < ROOM;
  }

  lemma ReadableLess(addrs: seq<Word>, blocks: seq<Block>, l: set<nat>, outstanding: nat, lo: nat, mid: nat, hi: nat)
    requires |addrs| == NADDRS && mid <= hi && !Readable(addrs, blocks, l, outstanding, lo, mid)
    ensures !Readable(addrs, blocks, l, outstanding, lo, hi)
  {
    hide DeepRead;
    var bn :| lo <= bn < mid && bn >= NDIRECT + NINDIRECT && !HasRoom(addrs, blocks, l, outstanding, lo, bn);
  }

  lemma ReadStep(addrs: seq<Word>, blocks: seq<Block>, l0: set<nat>, l: set<nat>, outstanding: nat,
                 offset: nat, tot: nat, m: nat, n: nat)
    requires |addrs| == NADDRS && tot + m <= n && (offset + tot) / BSIZE < MAXFILE
    requires WriteEnd(offset, tot) == (offset + tot) / BSIZE && WriteEnd(offset, tot + m) == (offset + tot) / BSIZE + 1
    requires offset / BSIZE <= (offset + tot) / BSIZE
    requires Readable(addrs, blocks, l0, outstanding, offset / BSIZE, WriteEnd(offset, tot))
    requires l == l0 + DeepRead(addrs, blocks, offset / BSIZE, WriteEnd(offset, tot))
    ensures l + DeepLeaf(addrs, blocks, (offset + tot) / BSIZE) == l0 + DeepRead(addrs, blocks, offset / BSIZE, WriteEnd(offset, tot + m))
    ensures var fine := (offset + tot) / BSIZE < NDIRECT + NINDIRECT || (outstanding >= 1 && |l| < ROOM);
            && (fine ==> Readable(addrs, blocks, l0, outstanding, offset / BSIZE, WriteEnd(offset, tot + m)))
            && (!fine ==> !Readable(addrs, blocks, l0, outstanding, offset / BSIZE, WriteEnd(offset, n)))
  {
    hide DeepRead, DeepLeaf, Readable, WriteEnd;
    var lo, bn := offset / BSIZE, (offset + tot) / BSIZE;
    DeepMore(addrs, blocks, lo, bn);
    ReadableMore(addrs, blocks, l0, outstanding, lo, bn);
    EndMore(offset, tot + m, n);
    if !Readable(addrs, blocks, l0, outstanding, lo, bn + 1) {
      ReadableLess(addrs, blocks, l0, outstanding, lo, bn + 1, WriteEnd(offset, n));
    }
  }

  lemma DeepNone(addrs: seq<Word>, blocks: seq<Block>, lo: nat)
    requires |addrs| == NADDRS
    ensures DeepRead(addrs, blocks, lo, lo) == {}
  {
    hide Addr, LeafPath;
  }

  lemma DeepMore(addrs: seq<Word>, blocks: seq<Block>, lo: nat, hi: nat)
    requires |addrs| == NADDRS && lo <= hi < MAXFILE
    ensures DeepRead(addrs, blocks, lo, hi + 1) == DeepRead(addrs, blocks, lo, hi) + DeepLeaf(addrs, blocks, hi)
  {
    hide Addr, LeafPath;
  }

  /** They are as many as there are such file blocks. */
  lemma {:induction false} DeepCount(sb: Super, addrs: seq<Word>, blocks: seq<Block>, lo: nat, hi: nat)
    requires TreeOk(sb, addrs, blocks) && NDIRECT + NINDIRECT <= lo <= hi <= MAXFILE
    requires forall bn :: lo <= bn < hi ==> Addr(addrs, blocks, LeafPath(bn)) != 0
    ensures |DeepRead(addrs, blocks, lo, hi)| == hi - lo
    decreases hi - lo
  {
    hide Addr, LeafPath, Placed, Used;
    if lo == hi {
      DeepNone(addrs, blocks, lo);
    } else {
      DeepCount(sb, addrs, blocks, lo, hi - 1);
      DeepMore(addrs, blocks, lo, hi - 1);
      forall bn | lo <= bn < hi - 1 ensures Addr(addrs, blocks, LeafPath(bn)) != Addr(addrs, blocks, LeafPath(hi - 1)) {
        OtherBlock(bn, hi - 1);
      }
    }
  }

  /** The end of the blocks that n bytes from offset on lie in. */
  function WriteEnd(offset: nat, n: nat): nat {
    if n == 0 then offset / BSIZE else (offset + n - 1) / BSIZE + 1
  }

  /** A slot below those filled so far still holds what it held at first, and what was free
      is free only if it was free at first. */
  lemma SameSlot(sb: Super, a0: seq<Word>, b0: seq<Block>, a1: seq<Word>, b1: seq<Block>, p: Path)
    requires IsPath(p) && |p| > 1 && Grew(sb, a0, b0, a1, b1, Parent(p))
    ensures Addr(a1, b1, p) == Addr(a0, b0, p)
    ensures forall c :: 0 <= c < sb.size && !Used(sb, b1, c) ==> !Used(sb, b0, c)
  {
    hide Addr, Used, Unshared;
  }

  lemma GrewMeans(sb: Super, a0: seq<Word>, b0: seq<Block>, a1: seq<Word>, b1: seq<Block>, p: Path)
    requires Grew(sb, a0, b0, a1, b1, p)
    ensures TreeOk(sb, a0, b0) && TreeOk(sb, a1, b1)
  {
  }

  /** One allocation below the root: the free block f, zeroed, goes into slot i of index block bp. */
  lemma IndexStep(sb: Super, a0: seq<Word>, b0: seq<Block>, a1: seq<Word>, b1: seq<Block>, bp: nat, i: nat, p: Path, f: Word)
    requires IsPath(p) && |p| > 1 && p[|p| - 1] == i && Grew(sb, a0, b0, a1, b1, Parent(p)) && bp == Addr(a1, b1, Parent(p)) != 0
    requires Addr(a1, b1, p) == 0 && sb.lo <= f < sb.size && !Used(sb, b1, f)
    requires forall c :: 0 <= c < sb.lo ==> Used(sb, b1, c)
    ensures sb.lo <= bp < sb.size
    ensures var t := Taken(sb, b1, f);
            var b2 := t[bp := SetWord(t[bp], i, f)];
            && Grew(sb, a0, b0, a1, b2, p) && Addr(a1, b2, p) == f as nat && Found(sb, a0, b0, p, f, true)
            && (forall c :: 0 <= c < sb.lo ==> Used(sb, b2, c))
            && (forall c :: 0 <= c < sb.size && c !in {sb.BBlock(f), f as nat, bp} ==> b2[c] == b1[c])
            && (forall c :: 0 <= c < sb.size && Used(sb, b2, c) && !Used(sb, b1, c) ==> c == f)
            && SameBelow(sb.bmapstart, b1, b2) && FreeBlocks(sb, b2) == FreeBlocks(sb, b1) - {f as nat}
  {
    hide Used, Unshared, Grew, Taken, SetWord, GetWord, Placed, FreeBlocks, Stepped, Addr;
    GrewMeans(sb, a0, b0, a1, b1, Parent(p));
    SameSlot(sb, a0, b0, a1, b1, p);
    SlotWord(sb, a1, b1, p);
    SlotStep(sb, a1, b1, p, f);
    ghost var b2 := SetSlot(a1, Taken(sb, b1, f), p, f).1;
    GrewStep(sb, a0, b0, a1, b1, a1, b2, Parent(p), p, f);
    StillValid(sb, a1, b1, a1, b2, p, f);
    TakenElsewhere(sb, b1, f);
  }

  lemma InTree(sb: Super, addrs: seq<Word>, blocks: seq<Block>, p: Path)
    requires TreeOk(sb, addrs, blocks) && IsPath(p) && Addr(addrs, blocks, p) != 0
    ensures sb.lo <= Addr(addrs, blocks, p) < sb.size
  {
  }

  lemma HoleBound(addrs: seq<Word>, blocks: seq<Block>, size: nat)
    requires |addrs| == NADDRS && NoHoles(addrs, blocks, size)
    ensures size <= MAXBYTES
  {
  }

  lemma NoHoleAt(addrs: seq<Word>, blocks: seq<Block>, size: nat, off: nat)
    requires |addrs| == NADDRS && NoHoles(addrs, blocks, size) && off < size
    ensures off / BSIZE < MAXFILE && Addr(addrs, blocks, LeafPath(off / BSIZE)) != 0
  {
  }

  lemma EndBound(offset: nat, n: nat)
    requires offset <= MAXBYTES && offset + n <= MAXBYTES
    ensures forall t :: 0 <= t <= n ==> WriteEnd(offset, t) <= MAXFILE
    ensures WriteEnd(offset, 0) == offset / BSIZE
    ensures var hi := WriteEnd(offset, n); hi <= offset / BSIZE || (hi - 1) * BSIZE < offset + n
  {
  }

  lemma NextStart(off: nat, m: nat)
    ensures m == BSIZE - off % BSIZE ==> (off + m) % BSIZE == 0
  {
    assert off == off / BSIZE * BSIZE + off % BSIZE;
  }

  lemma EndMore(offset: nat, m: nat, n: nat)
    requires m <= n
    ensures WriteEnd(offset, m) <= WriteEnd(offset, n)
  {
    if m > 0 { assert (offset + m - 1) / BSIZE <= (offset + n - 1) / BSIZE; }
  }

  lemma NextBlock(offset: nat, tot: nat, m: nat)
    requires tot == 0 || (offset + tot) % BSIZE == 0
    requires 0 < m <= BSIZE - (offset + tot) % BSIZE
    ensures WriteEnd(offset, tot) == (offset + tot) / BSIZE && WriteEnd(offset, tot + m) == (offset + tot) / BSIZE + 1
    ensures offset / BSIZE <= (offset + tot) / BSIZE
  {
    var q, r := (offset + tot) / BSIZE, (offset + tot) % BSIZE;
    assert offset + tot == q * BSIZE + r;
    assert (q * BSIZE + (r + m - 1)) / BSIZE == q;
    if tot > 0 { assert (q * BSIZE - 1) / BSIZE == q - 1; }
  }

  lemma Covered(addrs: seq<Word>, blocks: seq<Block>, size: nat, lo: nat, hi: nat, end: nat)
    requires |addrs| == NADDRS && NoHoles(addrs, blocks, size) && end <= size
    requires hi <= lo || (hi - 1) * BSIZE < end
    ensures forall bn :: lo <= bn < hi && bn < MAXFILE ==> Addr(addrs, blocks, LeafPath(bn)) != 0
  {
    hide Addr, LeafPath;
  }

  lemma SetWordAt(x: Block, i: nat, w: Word)
    requires i < NWORDS
    ensures forall j :: 0 <= j < NWORDS ==> GetWord(SetWord(x, i, w), j) == if j == i then w else GetWord(x, j)
  {
  }

  lemma SparesMeta(sb: Super, a0: seq<Word>, b0: seq<Block>, a1: seq<Word>, b1: seq<Block>, b2: seq<Block>)
    requires Spares(sb, a0, b0, a1, b1) && TreeOk(sb, a1, b2)
    requires forall q :: IsPath(q) ==> Addr(a1, b2, q) == Addr(a1, b1, q)
    requires forall c :: 0 <= c < sb.size ==> Used(sb, b2, c) == Used(sb, b1, c)
    requires forall c :: sb.lo <= c < sb.size ==> b2[c] == b1[c]
    ensures Spares(sb, a0, b0, a1, b2)
  {
    hide Addr, Used, Unshared, Placed;
    forall c ensures Owned(a1, b2, c) == Owned(a1, b1, c) {
      if Owned(a1, b2, c) {
        var q :| IsPath(q) && Addr(a1, b2, q) == c;
        assert Addr(a1, b1, q) == c;
      }
      if Owned(a1, b1, c) {
        var q :| IsPath(q) && Addr(a1, b1, q) == c;
        assert Addr(a1, b2, q) == c;
      }
    }
  }

  lemma SpliceNone(c: seq<Byte>, off: nat, src: seq<Byte>)
    requires off <= |c|
    ensures Splice(c, off, src[..0]) == c
  {
  }

  lemma SpliceTwice(c: seq<Byte>, off: nat, src: seq<Byte>, tot: nat, m: nat)
    requires off <= |c| && tot + m <= |src|
    ensures |Splice(c, off, src[..tot])| == Max(|c|, off + tot)
    ensures Splice(Splice(c, off, src[..tot]), off + tot, src[tot..tot + m]) == Splice(c, off, src[..tot + m])
  {
  }

  lemma StillValid(sb: Super, a1: seq<Word>, b1: seq<Block>, a2: seq<Word>, b2: seq<Block>, p: Path, f: Word)
    requires Stepped(sb, a1, b1, a2, b2, p, f) && forall c :: 0 <= c < sb.lo ==> Used(sb, b1, c)
    ensures forall c :: 0 <= c < sb.lo ==> Used(sb, b2, c)
    ensures Addr(a2, b2, p) == f as nat
    ensures |p| > 1 ==> Addr(a2, b2, Parent(p)) == Addr(a1, b1, Parent(p))
    ensures |b1| == |b2| == sb.size && FreeBlocks(sb, b2) == FreeBlocks(sb, b1) - {f as nat}
    ensures forall c :: 0 <= c < sb.size && Used(sb, b2, c) && !Used(sb, b1, c) ==> c == f
  {
    hide Addr, Used, Placed, Unshared;
    OneLess(sb, b1, b2, f);
  }
}
