/** Files on which fs.c of project_03 misses what it is for, on a disk as mkfs lays it out. */
module Examples {
  import opened Blocks
  import opened BlockTree
  import opened FileData
  import opened Durability
  import opened Capacity
  import opened Files
  import opened Truncate

  import Bio
  import Commit
  import FileWrite

  /* ---------- A file of nb blocks and no slot beyond them ---------- */

  /** FSSIZE blocks: the log from block 2 on, the inodes from 32, the bitmap from 58, data from 68. */
  const SB := Super(40000, 58, 68)

  const IBLOCK := 32
  const INDEX := 2

  const LIMIT := 20000  // the files of this module have no more blocks
  const TOP := 20400    // all blocks below this one are in use

  /** The slots in the order in which writei fills them: an index block comes right before the blocks it leads to. */
  function Rank(p: Path): nat
    requires IsPath(p)
  {
    if p[0] < NDIRECT then p[0]
    else if p[0] == NDIRECT then 10 + (if |p| == 1 then 0 else 1 + p[1])
    else if p[0] == NDIRECT + 1 then
      139 + (if |p| == 1 then 0 else 1 + 129 * p[1] + if |p| == 2 then 0 else 1 + p[2])
    else
      16652 + (if |p| == 1 then 0 else 1 + 16513 * p[1] + if |p| == 2 then 0 else 1 + 129 * p[2] + if |p| == 3 then 0 else 1 + p[3])
  }

  /** What the slots hold. */
  function Entry(nb: nat, p: Path): (e: Word)
    requires IsPath(p) && nb <= LIMIT
    ensures (e != 0 <==> FirstBlock(p) < nb) && (e != 0 ==> e == SB.lo + Rank(p) < TOP)
  {
    if FirstBlock(p) >= nb then 0
    else
      assert p[0] == NDIRECT + 2 ==> At(p, 1) == 0 && At(p, 2) < 28;
      SB.lo + Rank(p)
  }

  /** The index block at address c. */
  function IndexAt(c: nat): (p: Path)
    ensures p != [] ==> IsPath(p) && !IsLeaf(p)
  {
    if c == 78 then [NDIRECT]
    else if c == 207 then [NDIRECT + 1]
    else if 208 <= c < 16720 && (c - 208) % 129 == 0 then [NDIRECT + 1, (c - 208) / 129]
    else if c == 16720 then [NDIRECT + 2]
    else if c == 16721 then [NDIRECT + 2, 0]
    else if 16722 <= c < 33234 && (c - 16722) % 129 == 0 then [NDIRECT + 2, 0, (c - 16722) / 129]
    else []
  }

  lemma IndexThere(nb: nat, p: Path)
    requires IsPath(p) && !IsLeaf(p) && FirstBlock(p) < nb <= LIMIT
    ensures IndexAt(SB.lo + Rank(p)) == p
  {
    if p[0] == NDIRECT + 1 && |p| == 2 {
      assert 129 * p[1] % 129 == 0 && 129 * p[1] / 129 == p[1];
    } else if p[0] == NDIRECT + 2 && |p| > 1 {
      assert At(p, 1) == 0;
      if |p| == 3 { assert 129 * p[2] % 129 == 0 && 129 * p[2] / 129 == p[2]; }
    }
  }

  /** The block whose words are w. */
  function Words(w: seq<Word>): (b: Block)
    requires |w| == NWORDS
  {
    var b := seq(BSIZE, j requires 0 <= j < BSIZE => ByteOf(w[j / 4], j % 4));
    assert |b| == BSIZE;
    b
  }

  function ByteOf(w: Word, k: nat): Byte
    requires k < 4
  {
    if k == 0 then w % 0x100 else if k == 1 then w / 0x100 % 0x100
    else if k == 2 then w / 0x1_0000 % 0x100 else FourBytes(w); w / 0x100_0000
  }

  lemma WordAt(w: seq<Word>, i: nat)
    requires |w| == NWORDS && i < NWORDS
    ensures GetWord(Words(w), i) == w[i]
  {
    FourBytes(w[i]);
    assert 4 * i / 4 == i && 4 * i % 4 == 0 && (4 * i + 1) / 4 == i && (4 * i + 1) % 4 == 1;
    assert (4 * i + 2) / 4 == i && (4 * i + 2) % 4 == 2 && (4 * i + 3) / 4 == i && (4 * i + 3) % 4 == 3;
  }

  /** The inode block: a regular file with one link, its size and its addresses. */
  function InodeWords(size: Word, a: seq<Word>): (w: seq<Word>)
    requires |a| == NADDRS
    ensures |w| == NWORDS
  {
    seq(NWORDS, i requires 0 <= i < NWORDS =>
      if i == 32 then 2 else if i == 33 then 0x1_0000 else if i == 34 then size else if 35 <= i < 48 then a[i - 35] else 0)
  }

  lemma InodeAt(size: Word, a: seq<Word>)
    requires |a| == NADDRS
    ensures Stored(Words(InodeWords(size, a)), INDEX, size, a)
  {
    hide GetWord, Words;
    forall w | 34 <= w < 48 ensures GetWord(Words(InodeWords(size, a)), w) == InodeWords(size, a)[w] {
      WordAt(InodeWords(size, a), w);
    }
  }

  /** The index block q. */
  function SlotWords(nb: nat, q: Path): (w: seq<Word>)
    requires nb <= LIMIT && (q != [] ==> IsPath(q) && !IsLeaf(q))
    ensures |w| == NWORDS
  {
    seq(NWORDS, i requires 0 <= i < NWORDS => if q != [] then Entry(nb, q + [i]) else 0)
  }

  /** Block t of the bitmap: the bits of all blocks below TOP are set. */
  function Map(t: nat): Block {
    seq(BSIZE, j requires 0 <= j < BSIZE => if BPB * t + 8 * j < TOP then 255 else 0)
  }

  function Addrs(nb: nat): (a: seq<Word>)
    requires nb <= LIMIT
    ensures |a| == NADDRS && forall r :: 0 <= r < NADDRS ==> a[r] == Entry(nb, [r])
  {
    seq(NADDRS, r requires 0 <= r < NADDRS => Entry(nb, [r]))
  }

  /** The blocks that are free. */
  ghost function Above(): (free: set<nat>)
    ensures forall c :: c in free <==> TOP <= c < SB.size
  {
    set c: nat {:trigger SB.BBlock(c)} | TOP <= c < SB.size
  }

  function BlockAt(nb: nat, c: nat): Block
    requires nb <= LIMIT
  {
    if c == IBLOCK then Words(InodeWords(nb * BSIZE, Addrs(nb)))
    else if SB.bmapstart <= c < SB.lo then Map(c - SB.bmapstart)
    else Words(SlotWords(nb, IndexAt(c)))
  }

  function Image(nb: nat): (b: seq<Block>)
    requires nb <= LIMIT
    ensures |b| == SB.size && forall c :: 0 <= c < SB.size ==> b[c] == BlockAt(nb, c)
  {
    seq(40000, c requires 0 <= c < 40000 => BlockAt(nb, c))
  }

  lemma {:induction false} EntryAddr(nb: nat, p: Path)
    requires IsPath(p) && nb <= LIMIT
    ensures Addr(Addrs(nb), Image(nb), p) == Entry(nb, p)
    decreases |p|
  {
    hide GetWord, Words, BlockAt, Rank, FirstBlock, IndexAt, Addrs, Image;
    if |p| > 1 {
      var r := Parent(p);
      EntryAddr(nb, r);
      FirstBelow(p);
      if Entry(nb, r) != 0 { EntryWord(nb, r, p[|p| - 1]); }
      assert r + [p[|p| - 1]] == p;
    } else {
      assert p == [p[0]];
    }
  }

  lemma FirstBelow(p: Path)
    requires IsPath(p) && |p| > 1
    ensures FirstBlock(Parent(p)) <= FirstBlock(p)
  {
    assert forall i :: 0 <= i < |p| - 1 ==> Parent(p)[i] == p[i];
  }

  lemma EntryWord(nb: nat, r: Path, i: nat)
    requires IsPath(r) && !IsLeaf(r) && nb <= LIMIT && Entry(nb, r) != 0 && i < NINDIRECT
    ensures GetWord(BlockAt(nb, Entry(nb, r)), i) == Entry(nb, r + [i])
  {
    hide GetWord, Words, FirstBlock;
    IndexThere(nb, r);
    WordAt(SlotWords(nb, r), i);
  }

  lemma EntryApart(nb: nat, p: Path, q: Path)
    requires IsPath(p) && IsPath(q) && p != q && nb <= LIMIT && Entry(nb, p) != 0
    ensures Entry(nb, p) != Entry(nb, q)
  {
    if Entry(nb, p) == Entry(nb, q) {
      RankApart(p, q);
    }
  }

  lemma RankApart(p: Path, q: Path)
    requires IsPath(p) && IsPath(q) && FirstBlock(p) < LIMIT && FirstBlock(q) < LIMIT && Rank(p) == Rank(q)
    ensures p == q
  {
    RankRange(p);
    RankRange(q);
    var k := if p[0] == NDIRECT + 1 then 1 else 2;
    if |p| > k && |q| > k {
      SameRow(p[k], Next(p, k), q[k], Next(q, k));
    }
    assert |p| == |q| && forall i :: 0 <= i < |p| ==> p[i] == q[i];
  }

  /** The place in its row of what follows index k of p. */
  function Next(p: Path, k: nat): nat {
    if |p| <= k + 1 then 0 else 1 + p[k + 1]
  }

  lemma SameRow(i: nat, x: nat, j: nat, y: nat)
    requires x < 129 && y < 129
    ensures 129 * i + x == 129 * j + y ==> i == j && x == y
  {
  }

  lemma RankRange(p: Path)
    requires IsPath(p) && FirstBlock(p) < LIMIT
    ensures if p[0] < NDIRECT then Rank(p) == p[0]
            else if p[0] == NDIRECT then 10 <= Rank(p) < 139
            else if p[0] == NDIRECT + 1 then 139 <= Rank(p) < 16652
            else 16652 <= Rank(p) && At(p, 1) == 0
  {
  }

  lemma {:induction false} Ones(x: nat, n: nat, k: nat)
    requires k < n && x + 1 == Pow2(n)
    ensures Bit(x, k)
  {
    var h := Pow2(n - 1) - 1;
    assert x == 2 * h + 1 && x / 2 == h && x % 2 == 1;
    if k > 0 { Ones(h, n - 1, k - 1); }
  }

  lemma {:induction false} NoBits(k: nat)
    ensures !Bit(0, k)
  {
    if k > 0 { NoBits(k - 1); }
  }

  lemma ByteBits(k: nat)
    requires k < 8
    ensures Bit(255, k) && !Bit(0, k) && (Bit(254, k) <==> k > 0)
  {
    assert Pow2(8) == 256 && Pow2(7) == 128;
    Ones(255, 8, k);
    NoBits(k);
    if k > 0 { Ones(127, 7, k - 1); }
  }

  lemma MapBit(t: nat, i: nat)
    requires i < BPB
    ensures GetBit(Map(t), i) <==> BPB * t + i < TOP
  {
    hide Bit;
    ByteBits(i % 8);
    assert i == 8 * (i / 8) + i % 8;
  }

  lemma Bits(nb: nat, c: nat)
    requires c < SB.size && nb <= LIMIT
    ensures Used(SB, Image(nb), c) <==> c < TOP
  {
    hide Words, IndexAt, GetBit, Map;
    MapBit(c / BPB, c % BPB);
    assert c == BPB * (c / BPB) + c % BPB;
  }

  /** Sound, with just the slots that its nb blocks need. */
  lemma ImageTree(nb: nat)
    requires nb <= LIMIT
    ensures TreeOk(SB, Addrs(nb), Image(nb)) && Tight(Addrs(nb), Image(nb), nb)
    ensures NoHoles(Addrs(nb), Image(nb), nb * BSIZE) && Snug(Addrs(nb), Image(nb), nb * BSIZE)
    ensures forall c :: 0 <= c < SB.size ==> (Used(SB, Image(nb), c) <==> c < TOP)
  {
    hide Used, Addr, Rank, FirstBlock, BlockAt, LeafPath;
    forall c | 0 <= c < SB.size ensures Used(SB, Image(nb), c) <==> c < TOP { Bits(nb, c); }
    forall p | IsPath(p) ensures Addr(Addrs(nb), Image(nb), p) == Entry(nb, p) { EntryAddr(nb, p); }
    forall p, q | IsPath(p) && IsPath(q) && p != q && Addr(Addrs(nb), Image(nb), p) != 0
      ensures Addr(Addrs(nb), Image(nb), p) != Addr(Addrs(nb), Image(nb), q)
    {
      EntryApart(nb, p, q);
    }
    forall bn | 0 <= bn < MAXFILE && bn * BSIZE < nb * BSIZE ensures Addr(Addrs(nb), Image(nb), LeafPath(bn)) != 0 {
      LeafFirst(bn);
    }
  }

  lemma LeafFirst(bn: nat)
    requires bn < MAXFILE
    ensures FirstBlock(LeafPath(bn)) == bn
  {
    LeafThere(bn);
  }

  /** A mounted file system with that file, nothing logged yet. */
  method Mount(nb: nat, outstanding: nat) returns (fs: Fs, ip: Inode)
    requires nb <= LIMIT
    ensures fresh(fs) && fresh(ip) && fs.sb == SB && fs.blocks == fs.committed == Image(nb) && fs.logged == {}
    ensures fs.outstanding == outstanding && ip.addrs == Addrs(nb) && ip.size == nb * BSIZE
    ensures fs.Durable() && fs.Sound(ip) && fs.Filed(ip) && Tight(ip.addrs, fs.blocks, nb)
    ensures FreeBlocks(SB, fs.blocks) == Above()
  {
    hide Used, Addr, Image, Addrs, Tight, Stored;
    ImageTree(nb);
    InodeAt(nb * BSIZE, Addrs(nb));
    fs := new Fs(SB, Image(nb), outstanding);
    ip := new Inode(IBLOCK, INDEX);
    ip.addrs, ip.size := Addrs(nb), nb * BSIZE;
  }

  /* ---------- What goes wrong ---------- */

  /** bmap fills an empty slot of index block 208 and does not log that block: the next commit leaves it out. */
  method UnloggedIndexBlock() returns (fs: Fs, ok: bool)
    ensures ok && |fs.blocks| == |fs.committed| == SB.size && !fs.Durable()
    ensures fs.blocks[208] != fs.committed[208] && 208 !in fs.logged
  {
    hide Used, Addr, Image, Addrs, Grew, Unlogged, Traced, Saved, LoggedBy, LastLog, SameBelow, Missing, FreeBlocks, CanFill, Tight;
    hide NoHoles, Placed, Unshared, Stored, LeafPath;
    var ip, addr;
    fs, ip := Mount(139, 1);
    ImageGap();
    OneFits();
    addr, ok := fs.Bmap(ip, 139);
    LeftOut(ip.addrs, fs.blocks, fs.logged);
    NotSaved(fs.blocks, fs.committed, fs.logged, 208);
  }

  /** A block that has changed and is not logged. */
  lemma NotSaved(b: seq<Block>, committed: seq<Block>, l: set<nat>, c: nat)
    requires c < |b| == |committed| && b[c] != committed[c] && c !in l
    ensures !Saved(b, committed, l)
  {
  }

  lemma LeftOut(a1: seq<Word>, b1: seq<Block>, l1: set<nat>)
    requires var p, a0, b0 := LeafPath(139), Addrs(139), Image(139);
             && Grew(SB, a0, b0, a1, b1, p) && Addr(a1, b1, p) != 0 && Traced(SB, a0, b0, {}, b1, l1, Unlogged(a0, b0, p))
    ensures |b1| == SB.size && b1[208] != Image(139)[208] && 208 !in l1
  {
    hide Used, Addr, Image, Addrs, Grew, Unlogged;
    var p, a0, b0 := [NDIRECT + 1, 0, 1], Addrs(139), Image(139);
    ImageGap();
    GrewMeans(SB, a0, b0, a1, b1, p);
    GrewKeepsSlots(SB, a0, b0, a1, b1, p);
    GapChanged(SB, a0, b0, a1, b1, p, 2);
    assert Deep(p[..2]);
  }

  lemma ImageGap()
    ensures var p := [NDIRECT + 1, 0, 1];
            && LeafPath(139) == p && IsPath(p[..2]) && Addr(Addrs(139), Image(139), p[..2]) == 208
            && Gap(Addrs(139), Image(139), p, 2) && 208 in Unlogged(Addrs(139), Image(139), p)
            && Missing(Addrs(139), Image(139), p) == 1
  {
    hide Used, Addr, Image, Addrs;
    var p := [NDIRECT + 1, 0, 1];
    EntryAddr(139, p);
    EntryAddr(139, p[..2]);
    assert p[..2] == Parent(p) == [NDIRECT + 1, 0] && p[..3] == p;
  }

  lemma OneFits()
    ensures CanFill(SB, Above(), {}, 1)
  {
    assert First(Above(), TOP);
    TakeFirst(SB, Above(), {}, TOP);
  }

  /** Outside a transaction the last block of a file of 139 blocks cannot be read. */
  method UnreadableBlock() returns (r: int, dst: seq<Byte>, ok: bool)
    ensures !ok
  {
    hide Image, Addrs, DeepRead, Addr, Used, Tight;
    var fs, ip := Mount(139, 0);
    assert !HasRoom(ip.addrs, fs.blocks, {}, 0, 138, 138);
    assert WriteEnd(138 * BSIZE, 1) == 139;
    r, dst, ok := fs.Readi(ip, 138 * BSIZE, 1);
  }

  /** Inside a transaction, and with nothing logged yet, thirty blocks beyond block 138 cannot be read at once. */
  method FullLog() returns (r: int, dst: seq<Byte>, ok: bool)
    ensures !ok
  {
    hide Image, Addrs, DeepRead, Addr, Used, LeafPath, Tight;
    var fs, ip := Mount(168, 1);
    ghost var deep := DeepRead(ip.addrs, fs.blocks, 138, 167);
    DeepCount(SB, ip.addrs, fs.blocks, 138, 167);
    assert {} + deep == deep;
    assert !HasRoom(ip.addrs, fs.blocks, {}, 1, 138, 167);
    assert WriteEnd(138 * BSIZE, 30 * BSIZE) == 168;
    r, dst, ok := fs.Readi(ip, 138 * BSIZE, 30 * BSIZE);
  }

  /** Truncating a file of 16523 blocks panics or frees block 0: one block is in the triple tree. */
  method BrokenTruncation() returns (fs: Fs, ok: bool)
    ensures |fs.blocks| == SB.size && Sized(SB, Addrs(16523), Image(16523))
    ensures !(ok && GaveBack(SB, Addrs(16523), Image(16523), fs.blocks))
  {
    hide Used, Addr, Image, Addrs, Tight, GaveBack, TripleFull, NoHoles, Placed, Unshared, Stored, Snug, FreeBlocks, Saved, Maps, Bitmap, SameOthers;
    var ip;
    fs, ip := Mount(16523, 1);
    NotWhole(ip.addrs, fs.blocks);
    ok := Itrunc(fs, ip);
  }

  lemma NotWhole(a: seq<Word>, b: seq<Block>)
    requires |a| == NADDRS && Tight(a, b, 16523)
    ensures !TripleFull(a, b)
  {
    hide Tight, TripleFull;
    TripleFullIff(a, b, 16523);
  }

  /* ---------- A write that logs all it may, on project_01 ---------- */

  /** A disk of 20000 blocks as its mkfs lays it out, with five bitmap blocks. */
  const SMALL := Super(20000, 58, 63)

  /** Its free blocks are 4000, 8000, 12000 and 16000, each in the range of another bitmap block. */
  predicate Spare(c: nat) {
    c == 4000 || c == 8000 || c == 12000 || c == 16000
  }

  function SpareMap(t: nat): Block {
    seq(BSIZE, j requires 0 <= j < BSIZE => if t < 4 && j == 500 - 12 * t then 254 else 255)
  }

  /** The file on it: eleven blocks and a half, all direct. */
  const SIZE := 11 * BSIZE + 256

  function SmallAddrs(): (a: seq<Word>)
    ensures |a| == NADDRS && a[12] == 0 && forall k :: 0 <= k < 12 ==> a[k] == 63 + k
  {
    seq(NADDRS, k requires 0 <= k < NADDRS => if k < 12 then 63 + k else 0)
  }

  function SmallBlock(c: nat): Block {
    if c == IBLOCK then Words(InodeWords(SIZE, SmallAddrs()))
    else if SMALL.bmapstart <= c < SMALL.lo then SpareMap(c - SMALL.bmapstart)
    else ZeroBlock()
  }

  function SmallImage(): (b: seq<Block>)
    ensures |b| == SMALL.size && forall c :: 0 <= c < SMALL.size ==> b[c] == SmallBlock(c)
  {
    seq(20000, c requires 0 <= c < 20000 => SmallBlock(c))
  }

  lemma SpareBit(t: nat, i: nat)
    requires i < BPB && t < 5
    ensures GetBit(SpareMap(t), i) <==> !Spare(BPB * t + i)
  {
    hide Bit;
    ByteBits(i % 8);
    assert i == 8 * (i / 8) + i % 8;
    assert Spare(BPB * t + i) <==> t < 4 && i == 4000 - 96 * t;
  }

  lemma SmallBits(c: nat)
    requires c < SMALL.size
    ensures Used(SMALL, SmallImage(), c) <==> !Spare(c)
  {
    hide Words, GetBit, SpareMap;
    SpareBit(c / BPB, c % BPB);
    assert c == BPB * (c / BPB) + c % BPB;
  }

  lemma SmallTree()
    ensures FileWrite.Tree(SMALL, SmallAddrs(), SmallImage()) && FileWrite.NoHoles(SmallAddrs(), SmallImage(), SIZE)
    ensures forall c :: 0 <= c < SMALL.size ==> (Used(SMALL, SmallImage(), c) <==> !Spare(c))
    ensures FreeBlocks(SMALL, SmallImage()) == {4000, 8000, 12000, 16000}
    ensures FileWrite.Unfilled(SMALL, SmallImage()) == 4
  {
    hide Used, SmallBlock;
    forall c | 0 <= c < SMALL.size ensures Used(SMALL, SmallImage(), c) <==> !Spare(c) { SmallBits(c); }
  }

  lemma SmallInode()
    ensures Stored(SmallImage()[IBLOCK], INDEX, SIZE, SmallAddrs())
  {
    InodeAt(SIZE, SmallAddrs());
  }

  method MountSmall() returns (fs: Fs, f: FileWrite.File)
    ensures fresh(fs) && fresh(f) && fresh(f.ip) && fs.sb == SMALL && fs.blocks == fs.committed == SmallImage()
    ensures fs.logged == {} && fs.outstanding == 0 && f.off == f.ip.size == SIZE && f.ip.addrs == SmallAddrs()
    ensures FileWrite.Sound(fs, f.ip) && fs.Filed(f.ip) && f.ip.iblock == IBLOCK && f.ip.index == INDEX
  {
    hide Used, FileWrite.Tree, FileWrite.NoHoles, Stored, SmallAddrs, SmallImage;
    SmallTree();
    SmallInode();
    fs := new Fs(SMALL, SmallImage(), 0);
    var ip := new Inode(IBLOCK, INDEX);
    ip.addrs, ip.size := SmallAddrs(), SIZE;
    f := new FileWrite.File(ip, true);
    f.off := SIZE;
  }

  /** Three blocks' worth of bytes, appended in the middle of a block: the transaction logs MAXOPBLOCKS blocks. */
  method FullTransaction() returns (fs: Fs, ok: bool, ghost begun: set<nat>, ghost ended: set<nat>)
    ensures ok && |ended - begun| == Commit.MAXOPBLOCKS
  {
    hide Used, FileWrite.Tree, FileWrite.NoHoles, FileWrite.Outgrown, FileWrite.Content, Splice, Stored, SmallAddrs, SmallImage, Logs, FileWrite.Unfilled;
    var f, r;
    fs, f := MountSmall();
    SmallTree();
    ghost var b0, c0 := fs.blocks, FileWrite.Bytes(fs, f.ip);
    var src: seq<Byte> := seq(1536, _ => 1);
    assert FileWrite.Enough(f.ip.addrs, SIZE, 1536) == 4;
    r, ok, begun, ended := FileWrite.WriteOp(fs, f, src, 1536);
    assert src[..1536] == src;
    TenLogged(f.ip.addrs, fs.blocks, ended, c0);
  }

  /** Of the four new slots each has got one of the four free blocks. */
  lemma NewSlots(a: seq<Word>, b: seq<Block>)
    requires FileWrite.Outgrown(SMALL, SmallAddrs(), SmallImage(), a, b) && |a| == NADDRS && FileWrite.NoHoles(a, b, SIZE + 1536)
    ensures |b| == SMALL.size && FileWrite.Slot(a, b, 11) == 74 && FileWrite.Slot(a, b, 12) == a[12]
    ensures forall j :: 12 <= j < 16 ==> FileWrite.Slot(a, b, j) != 0
    ensures forall c :: Spare(c) ==> Used(SMALL, b, c) && !Used(SMALL, SmallImage(), c) && exists j :: 12 <= j < 16 && FileWrite.Slot(a, b, j) == c
  {
    hide Used, SmallBlock, GetWord;
    SmallTree();
    assert FileWrite.SlotOf(12) == 13 && FileWrite.SlotOf(13) == 14 && FileWrite.SlotOf(14) == 15;
    forall j | 12 <= j < 16 ensures FileWrite.Slot(SmallAddrs(), SmallImage(), j) == 0 {}
    forall j | 12 <= j < 16 ensures Spare(FileWrite.Slot(a, b, j)) && Used(SMALL, b, FileWrite.Slot(a, b, j)) {
      assert !Used(SMALL, SmallImage(), FileWrite.Slot(a, b, j));
    }
    FourSpare(FileWrite.Slot(a, b, 12), FileWrite.Slot(a, b, 13), FileWrite.Slot(a, b, 14), FileWrite.Slot(a, b, 15));
  }

  lemma FourSpare(w: nat, x: nat, y: nat, z: nat)
    requires Spare(w) && Spare(x) && Spare(y) && Spare(z) && w != x && w != y && w != z && x != y && x != z && y != z
    ensures forall c :: Spare(c) ==> c == w || c == x || c == y || c == z
  {
  }

  /** The bitmap block of a block taken has changed. */
  lemma MapChanged(a: seq<Word>, b: seq<Block>, c: nat)
    requires FileWrite.Outgrown(SMALL, SmallAddrs(), SmallImage(), a, b) && |a| == NADDRS && FileWrite.NoHoles(a, b, SIZE + 1536)
    requires Spare(c)
    ensures |b| == SMALL.size && b[58 + c / BPB] != SmallImage()[58 + c / BPB]
  {
    hide FileWrite.Outgrown, FileWrite.NoHoles, GetBit, SmallImage;
    NewSlots(a, b);
  }

  lemma ByteOne(a: seq<Word>, b: seq<Block>, c0: seq<Byte>, i: nat)
    requires |a| == NADDRS && |c0| == SIZE <= i < SIZE + 1536
    requires FileWrite.Content(a, b, SIZE + 1536) == Splice(c0, SIZE, seq(1536, _ => 1))
    ensures var c := FileWrite.Slot(a, b, FileWrite.SlotOf(i / BSIZE)); c < |b| && b[c][i % BSIZE] == 1
  {
    hide FileWrite.Slot, Splice;
    SpliceAt(c0, SIZE, seq(1536, _ => 1), i);
    assert FileWrite.Content(a, b, SIZE + 1536)[i] == FileWrite.ByteAt(a, b, i);
  }

  /** So has each block that holds new bytes, and the indirect block. */
  lemma DataChanged(a: seq<Word>, b: seq<Block>, c0: seq<Byte>, c: nat)
    requires FileWrite.Outgrown(SMALL, SmallAddrs(), SmallImage(), a, b) && |a| == NADDRS && FileWrite.NoHoles(a, b, SIZE + 1536)
    requires |c0| == SIZE && FileWrite.Content(a, b, SIZE + 1536) == Splice(c0, SIZE, seq(1536, _ => 1))
    requires Spare(c) || c == 74
    ensures |b| == SMALL.size && b[c] != SmallImage()[c]
  {
    hide FileWrite.Outgrown, FileWrite.NoHoles, FileWrite.Content, Splice, Used, GetWord;
    NewSlots(a, b);
    ZeroWords();
    assert SmallImage()[c] == ZeroBlock();
    ByteOne(a, b, c0, SIZE);
    ByteOne(a, b, c0, 12 * BSIZE);
    ByteOne(a, b, c0, 13 * BSIZE);
    ByteOne(a, b, c0, 14 * BSIZE);
    assert a[12] as nat == c ==> FileWrite.Slot(a, b, 13) == GetWord(b[c], 0);
  }

  lemma TenLogged(a: seq<Word>, b: seq<Block>, l: set<nat>, c0: seq<Byte>)
    requires |a| == NADDRS && |b| == SMALL.size
    requires FileWrite.Outgrown(SMALL, SmallAddrs(), SmallImage(), a, b) && FileWrite.NoHoles(a, b, SIZE + 1536) && |c0| == SIZE
    requires FileWrite.Content(a, b, SIZE + 1536) == Splice(c0, SIZE, seq(1536, _ => 1))
    requires Stored(b[IBLOCK], INDEX, SIZE + 1536, a) && Logs(SmallImage(), {}, b, l)
    ensures |l| >= 10
  {
    hide Used, FileWrite.Outgrown, FileWrite.Content, FileWrite.NoHoles, Splice, GetWord, GetBit, SmallBlock, SmallAddrs, FileWrite.Slot;
    var ten := {IBLOCK, 58, 59, 60, 61, 74, 4000, 8000, 12000, 16000};
    forall c | c in ten ensures c in l {
      if 58 <= c < 62 {
        MapChanged(a, b, 4000 * (c - 57));
      } else if c == IBLOCK {
        SmallInode();
      } else {
        DataChanged(a, b, c0, c);
      }
    }
    Bio.SubsetSize(ten, l);
  }
}
