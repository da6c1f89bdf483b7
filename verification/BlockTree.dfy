/** The tree of index blocks under an inode, as a partial map from paths to block numbers. */
module BlockTree {
  import opened Blocks

  const NDIRECT := 10
  const NINDIRECT := NWORDS
  const NADDRS := 13      // the words of an inode, which project_01 splits 12 + 1 and project_03 10 + 3
  const MAXFILE := NDIRECT + NINDIRECT + NINDIRECT * NINDIRECT + NINDIRECT * NINDIRECT * NINDIRECT

  /** A slot of the tree: an index into the addresses of the inode, then one into each index block below. */
  type Path = seq<nat>

  function Depth(root: nat): nat {
    if root < NDIRECT then 0 else root - NDIRECT + 1
  }

  predicate IsPath(p: Path) {
    1 <= |p| && p[0] < NADDRS && |p| <= 1 + Depth(p[0]) && forall i :: 1 <= i < |p| ==> p[i] < NINDIRECT
  }

  predicate IsLeaf(p: Path) {
    IsPath(p) && |p| == 1 + Depth(p[0])
  }

  function Parent(p: Path): (q: Path)
    requires |p| > 1
    ensures |q| == |p| - 1 && q[0] == p[0] && (IsPath(p) ==> IsPath(q) && !IsLeaf(q))
  {
    p[..|p| - 1]
  }

  /** The slot that bmap uses for block bn of the file. */
  function LeafPath(bn: nat): (p: Path)
    requires bn < MAXFILE
    ensures IsLeaf(p)
  {
    if bn < NDIRECT then [bn]
    else
      var b1 := bn - NDIRECT;
      if b1 < NINDIRECT then [NDIRECT, b1]
      else
        var b2 := b1 - NINDIRECT;
        if b2 < NINDIRECT * NINDIRECT then [NDIRECT + 1, b2 / NINDIRECT, b2 % NINDIRECT]
        else
          var b3 := b2 - NINDIRECT * NINDIRECT;
          TriplePath(b3)
  }

  function TriplePath(b3: nat): (p: Path)
    requires b3 < NINDIRECT * NINDIRECT * NINDIRECT
    ensures |p| == 4 && p[0] == NDIRECT + 2 && p[1] < NINDIRECT && p[2] < NINDIRECT && p[3] < NINDIRECT
  {
    [NDIRECT + 2, b3 / (NINDIRECT * NINDIRECT), b3 % (NINDIRECT * NINDIRECT) / NINDIRECT, b3 % NINDIRECT]
  }

  /** Which file block a full path stands for. */
  function BlockOf(p: Path): (bn: nat)
    requires IsLeaf(p)
  {
    if p[0] < NDIRECT then p[0]
    else if p[0] == NDIRECT then NDIRECT + p[1]
    else if p[0] == NDIRECT + 1 then NDIRECT + NINDIRECT + NINDIRECT * p[1] + p[2]
    else NDIRECT + NINDIRECT + NINDIRECT * NINDIRECT + NINDIRECT * NINDIRECT * p[1] + NINDIRECT * p[2] + p[3]
  }

  /** The index arithmetic of bmap is a bijection between [0, MAXFILE) and the leaf slots. */
  lemma LeafPathBijective()
    ensures forall bn :: 0 <= bn < MAXFILE ==> BlockOf(LeafPath(bn)) == bn
    ensures forall p :: IsLeaf(p) ==> BlockOf(p) < MAXFILE && LeafPath(BlockOf(p)) == p
  {
    forall bn | 0 <= bn < MAXFILE ensures BlockOf(LeafPath(bn)) == bn {
      LeafThere(bn);
    }
    forall p | IsLeaf(p) ensures BlockOf(p) < MAXFILE && LeafPath(BlockOf(p)) == p {
      LeafBack(p);
    }
  }

  lemma LeafThere(bn: nat)
    requires bn < MAXFILE
    ensures BlockOf(LeafPath(bn)) == bn
  {
    if bn >= NDIRECT + NINDIRECT + NINDIRECT * NINDIRECT {
      ThreeDigits(bn - NDIRECT - NINDIRECT - NINDIRECT * NINDIRECT);
    }
  }

  lemma ThreeDigits(b: nat)
    ensures b == 16384 * (b / 16384) + 128 * (b % 16384 / 128) + b % 128
  {
    assert b % 16384 % 128 == b % 128;
  }

  lemma LeafBack(p: Path)
    requires IsLeaf(p)
    ensures BlockOf(p) < MAXFILE && LeafPath(BlockOf(p)) == p
  {
    if p[0] == NDIRECT + 2 {
      DigitsBack(p[1], p[2], p[3]);
    } else if p[0] == NDIRECT + 1 {
      assert (128 * p[1] + p[2]) / 128 == p[1] && (128 * p[1] + p[2]) % 128 == p[2];
    }
  }

  lemma DigitsBack(i: nat, j: nat, k: nat)
    requires i < 128 && j < 128 && k < 128
    ensures var b := 16384 * i + 128 * j + k;
            b / 16384 == i && b % 16384 == 128 * j + k && b % 16384 / 128 == j && b % 128 == k
  {
  }

  /** Index i of path p, 0 when the path is not that long. */
  function At(p: Path, i: nat): nat {
    if i < |p| then p[i] else 0
  }

  /** The first file block that lies below slot p. */
  function FirstBlock(p: Path): nat
    requires IsPath(p)
  {
    if p[0] < NDIRECT then p[0]
    else if p[0] == NDIRECT then NDIRECT + At(p, 1)
    else if p[0] == NDIRECT + 1 then NDIRECT + NINDIRECT + NINDIRECT * At(p, 1) + At(p, 2)
    else NDIRECT + NINDIRECT + NINDIRECT * NINDIRECT + NINDIRECT * NINDIRECT * At(p, 1) + NINDIRECT * At(p, 2) + At(p, 3)
  }

  /** p followed by zeros down to a leaf. */
  function FirstLeaf(p: Path): (q: Path)
    requires IsPath(p)
    ensures IsLeaf(q) && p <= q && BlockOf(q) == FirstBlock(p)
    decreases 4 - |p|
  {
    if IsLeaf(p) then p else FirstLeaf(p + [0])
  }

  lemma FirstLeafPath(p: Path)
    requires IsPath(p)
    ensures FirstBlock(p) < MAXFILE && p <= LeafPath(FirstBlock(p))
  {
    LeafBack(FirstLeaf(p));
  }

  lemma FirstOfPrefix(q: Path, bn: nat)
    requires IsPath(q) && bn < MAXFILE && q <= LeafPath(bn)
    ensures FirstBlock(q) <= bn
  {
    LeafThere(bn);
    var p := LeafPath(bn);
    assert forall i :: 0 <= i < |q| ==> q[i] == p[i];
  }

  /* ---------- Reading the tree ---------- */

  /** The block number stored in slot p, 0 when the slot is empty or does not exist yet. */
  ghost function Addr(addrs: seq<Word>, blocks: seq<Block>, p: Path): (a: nat)
    requires |addrs| == NADDRS && IsPath(p)
    decreases |p|
  {
    if |p| == 1 then addrs[p[0]]
    else
      var a := Addr(addrs, blocks, Parent(p));
      if a == 0 || a >= |blocks| then 0 else GetWord(blocks[a], p[|p| - 1])
  }

  /** Where bmap finds the address of file block bn. */
  lemma AddrExactly(a: seq<Word>, b: seq<Block>, bn: nat)
    requires |a| == 13 && bn < MAXFILE && Addr(a, b, LeafPath(bn)) != 0
    ensures bn < 10 ==> Addr(a, b, LeafPath(bn)) == a[bn]
    ensures 10 <= bn < 138 ==> 0 < a[10] < |b| && Addr(a, b, LeafPath(bn)) == GetWord(b[a[10]], bn - 10)
    ensures 138 <= bn < 16522 ==>
      && 0 < a[11] < |b|
      && var x := GetWord(b[a[11]], (bn - 138) / 128);
         0 < x < |b| && Addr(a, b, LeafPath(bn)) == GetWord(b[x], (bn - 138) % 128)
    ensures 16522 <= bn ==>
      && bn < 2113674 && 0 < a[12] < |b|
      && var x := GetWord(b[a[12]], (bn - 16522) / 16384);
         0 < x < |b| && var y := GetWord(b[x], (bn - 16522) / 128 % 128);
         0 < y < |b| && Addr(a, b, LeafPath(bn)) == GetWord(b[y], (bn - 16522) % 128)
  {
    hide GetWord, Addr, LeafPath;
    LeafIs(bn);
    if bn < 10 {
      AddrRoot(a, b, bn);
    } else if bn < 138 {
      AddrBelow(a, b, [10], bn - 10);
      AddrRoot(a, b, 10);
    } else if bn < 16522 {
      AddrDouble(a, b, (bn - 138) / 128, (bn - 138) % 128);
    } else {
      AddrTriple(a, b, (bn - 16522) / 16384, (bn - 16522) / 128 % 128, (bn - 16522) % 128);
    }
  }

  lemma LeafIs(bn: nat)
    requires bn < MAXFILE
    ensures bn < 10 ==> LeafPath(bn) == [bn]
    ensures 10 <= bn < 138 ==> LeafPath(bn) == [10, bn - 10]
    ensures 138 <= bn < 16522 ==> LeafPath(bn) == [11, (bn - 138) / 128, (bn - 138) % 128] && (bn - 138) / 128 < 128
    ensures 16522 <= bn ==> LeafPath(bn) == [12, (bn - 16522) / 16384, (bn - 16522) / 128 % 128, (bn - 16522) % 128] && (bn - 16522) / 16384 < 128
  {
    if 16522 <= bn { MiddleDigit(bn - 16522); }
  }

  lemma AddrDouble(a: seq<Word>, b: seq<Block>, i: nat, j: nat)
    requires |a| == 13 && i < 128 && j < 128 && Addr(a, b, [11, i, j]) != 0
    ensures 0 < a[11] < |b| && var x := GetWord(b[a[11]], i); 0 < x < |b| && Addr(a, b, [11, i, j]) == GetWord(b[x], j)
  {
    hide GetWord, Addr;
    AddrBelow(a, b, [11, i], j);
    AddrBelow(a, b, [11], i);
    AddrRoot(a, b, 11);
  }

  lemma AddrTriple(a: seq<Word>, b: seq<Block>, i: nat, j: nat, k: nat)
    requires |a| == 13 && i < 128 && j < 128 && k < 128 && Addr(a, b, [12, i, j, k]) != 0
    ensures 0 < a[12] < |b| && var x := GetWord(b[a[12]], i);
            0 < x < |b| && var y := GetWord(b[x], j);
            0 < y < |b| && Addr(a, b, [12, i, j, k]) == GetWord(b[y], k)
  {
    hide GetWord, Addr;
    AddrBelow(a, b, [12, i, j], k);
    AddrBelow(a, b, [12, i], j);
    AddrBelow(a, b, [12], i);
    AddrRoot(a, b, 12);
  }

  lemma MiddleDigit(x: nat)
    ensures x % 16384 / 128 == x / 128 % 128
  {
  }

  lemma AddrRoot(a: seq<Word>, b: seq<Block>, r: nat)
    requires |a| == NADDRS && r < NADDRS
    ensures Addr(a, b, [r]) == a[r]
  {
  }

  /** The address in slot i of the index block that slot p holds. */
  lemma AddrBelow(a: seq<Word>, b: seq<Block>, p: Path, i: nat)
    requires |a| == NADDRS && IsPath(p) && IsPath(p + [i]) && i < NINDIRECT
    ensures var x := Addr(a, b, p); Addr(a, b, p + [i]) == if 0 < x < |b| then GetWord(b[x], i) else 0
    ensures |p| == 1 ==> p + [i] == [p[0], i]
    ensures |p| == 2 ==> p + [i] == [p[0], p[1], i]
    ensures |p| == 3 ==> p + [i] == [p[0], p[1], p[2], i]
  {
    hide GetWord;
    assert Parent(p + [i]) == p;
  }

  /* ---------- The bitmap ---------- */

  /** sb.size, sb.bmapstart, and the first data block (nmeta in mkfs). */
  datatype Super = Super(size: nat, bmapstart: nat, lo: nat) {
    predicate Ok() {
      0 < bmapstart && bmapstart + size / BPB < lo < size < 0x1_0000_0000
    }

    /** BBLOCK */
    function BBlock(b: nat): nat {
      b / BPB + bmapstart
    }
  }

  /** The blocks of the bitmap. */
  ghost function Bitmap(sb: Super): set<nat> {
    set b | 0 <= b < sb.size :: sb.BBlock(b)
  }

  predicate Used(sb: Super, blocks: seq<Block>, b: nat)
    requires sb.Ok() && |blocks| == sb.size && b < sb.size
  {
    GetBit(blocks[sb.BBlock(b)], b % BPB)
  }

  /** The bits of one block of the bitmap, one after the other. */
  lemma BitOf(sb: Super, blocks: seq<Block>, b: nat, bi: nat)
    requires sb.Ok() && |blocks| == sb.size && b % BPB == 0 && bi < BPB && b + bi < sb.size
    ensures sb.BBlock(b) == sb.BBlock(b + bi) < sb.size && Used(sb, blocks, b + bi) == GetBit(blocks[sb.BBlock(b)], bi)
  {
    assert (b + bi) / BPB == b / BPB && (b + bi) % BPB == bi;
  }

  lemma UsedExactly(sb: Super, blocks: seq<Block>, b: nat)
    requires sb.Ok() && |blocks| == sb.size && b < sb.size
    ensures sb.bmapstart + b / 4096 < sb.size
    ensures Used(sb, blocks, b) <==> blocks[sb.bmapstart + b / 4096][b % 4096 / 8] / [1, 2, 4, 8, 16, 32, 64, 128][b % 8] % 2 == 1
  {
    BitExactly(blocks[sb.BBlock(b)], b % BPB);
    assert b % 4096 % 8 == b % 8;
  }

  /** blocks with the bit of b changed. */
  function Mark(sb: Super, blocks: seq<Block>, b: nat, v: bool): (r: seq<Block>)
    requires sb.Ok() && |blocks| == sb.size && b < sb.size
    ensures |r| == |blocks|
  {
    blocks[sb.BBlock(b) := PutBit(blocks[sb.BBlock(b)], b % BPB, v)]
  }

  lemma MarkUsed(sb: Super, blocks: seq<Block>, b: nat, v: bool, c: nat)
    requires sb.Ok() && |blocks| == sb.size && b < sb.size && c < sb.size
    ensures Used(sb, Mark(sb, blocks, b, v), c) == if c == b then v else Used(sb, blocks, c)
  {
  }

  /** Only the blocks before the data hold bits. */
  lemma BitsKept(sb: Super, b1: seq<Block>, b2: seq<Block>)
    requires sb.Ok() && |b1| == |b2| == sb.size && forall c :: 0 <= c < sb.lo ==> b2[c] == b1[c]
    ensures forall c :: 0 <= c < sb.size ==> Used(sb, b2, c) == Used(sb, b1, c)
  {
    hide GetBit;
    assert forall c :: 0 <= c < sb.size ==> sb.BBlock(c) < sb.lo;
  }

  /** What balloc does to block f: its bit is set and it is filled with zeros. */
  function Taken(sb: Super, blocks: seq<Block>, f: nat): (r: seq<Block>)
    requires sb.Ok() && |blocks| == sb.size && f < sb.size
    ensures |r| == |blocks|
  {
    Mark(sb, blocks, f, true)[f := ZeroBlock()]
  }

  lemma TakenUsed(sb: Super, blocks: seq<Block>, f: nat)
    requires sb.Ok() && |blocks| == sb.size && sb.lo <= f < sb.size
    ensures forall c :: 0 <= c < sb.size ==> Used(sb, Taken(sb, blocks, f), c) == (c == f || Used(sb, blocks, c))
    ensures forall c :: sb.lo <= c < sb.size && c != f ==> Taken(sb, blocks, f)[c] == blocks[c]
  {
    hide GetBit, PutBit;
    assert forall c :: 0 <= c < sb.size ==> sb.BBlock(c) < sb.lo;
    forall c | 0 <= c < sb.size ensures Used(sb, Taken(sb, blocks, f), c) == (c == f || Used(sb, blocks, c)) {
      MarkUsed(sb, blocks, f, true, c);
    }
  }

  predicate SameBelow(n: nat, b1: seq<Block>, b2: seq<Block>) {
    |b1| == |b2| && forall c :: 0 <= c < n && c < |b1| ==> b2[c] == b1[c]
  }

  predicate SameFrom(n: nat, b1: seq<Block>, b2: seq<Block>) {
    |b1| == |b2| && forall c :: n <= c < |b1| ==> b2[c] == b1[c]
  }

  lemma BitsFrom(sb: Super, b1: seq<Block>, b2: seq<Block>)
    requires sb.Ok() && |b1| == |b2| == sb.size && SameFrom(sb.bmapstart, b1, b2)
    ensures forall c :: 0 <= c < sb.size ==> Used(sb, b2, c) == Used(sb, b1, c)
  {
    hide GetBit;
    assert forall c :: 0 <= c < sb.size ==> sb.bmapstart <= sb.BBlock(c) < sb.lo;
  }

  lemma SameSelf(n: nat, b: seq<Block>)
    ensures SameBelow(n, b, b)
  {
  }

  ghost function FreeBlocks(sb: Super, blocks: seq<Block>): set<nat>
    requires sb.Ok() && |blocks| == sb.size
  {
    set c | 0 <= c < sb.size && !Used(sb, blocks, c)
  }

  /** With block f taken there is one free block less. */
  lemma OneLess(sb: Super, b1: seq<Block>, b2: seq<Block>, f: nat)
    requires sb.Ok() && |b1| == |b2| == sb.size && f < sb.size && !Used(sb, b1, f)
    requires forall c :: 0 <= c < sb.size ==> Used(sb, b2, c) == (c == f || Used(sb, b1, c))
    ensures FreeBlocks(sb, b2) == FreeBlocks(sb, b1) - {f}
  {
    hide Used;
  }

  lemma SomeFree(sb: Super, blocks: seq<Block>)
    requires sb.Ok() && |blocks| == sb.size
    ensures FreeBlocks(sb, blocks) == {} <==> forall c :: 0 <= c < sb.size ==> Used(sb, blocks, c)
  {
    hide Used;
    if c :| c in FreeBlocks(sb, blocks) {
      assert !Used(sb, blocks, c);
    }
    if c :| 0 <= c < sb.size && !Used(sb, blocks, c) {
      assert c in FreeBlocks(sb, blocks);
    }
  }

  /* ---------- Well-formed trees ---------- */

  predicate Sized(sb: Super, addrs: seq<Word>, blocks: seq<Block>) {
    sb.Ok() && |addrs| == NADDRS && |blocks| == sb.size
  }

  /** Every block of the tree is a data block whose bit is set. */
  ghost predicate Placed(sb: Super, addrs: seq<Word>, blocks: seq<Block>)
    requires Sized(sb, addrs, blocks)
  {
    forall p :: IsPath(p) && Addr(addrs, blocks, p) != 0 ==>
      sb.lo <= Addr(addrs, blocks, p) < sb.size && Used(sb, blocks, Addr(addrs, blocks, p))
  }

  /** No block is in two slots. */
  ghost predicate Unshared(addrs: seq<Word>, blocks: seq<Block>)
    requires |addrs| == NADDRS
  {
    forall p, q :: IsPath(p) && IsPath(q) && p != q && Addr(addrs, blocks, p) != 0 ==>
      Addr(addrs, blocks, p) != Addr(addrs, blocks, q)
  }

  ghost predicate TreeOk(sb: Super, addrs: seq<Word>, blocks: seq<Block>) {
    Sized(sb, addrs, blocks) && Placed(sb, addrs, blocks) && Unshared(addrs, blocks)
  }

  lemma SlotWord(sb: Super, a: seq<Word>, b: seq<Block>, p: Path)
    requires TreeOk(sb, a, b) && IsPath(p) && |p| > 1 && Addr(a, b, Parent(p)) != 0
    ensures sb.lo <= Addr(a, b, Parent(p)) < sb.size && Addr(a, b, p) == GetWord(b[Addr(a, b, Parent(p))], p[|p| - 1])
  {
    hide Used;
  }

  /** Store f into slot p. */
  ghost function SetSlot(addrs: seq<Word>, blocks: seq<Block>, p: Path, f: Word): (r: (seq<Word>, seq<Block>))
    requires |addrs| == NADDRS && IsPath(p)
    requires |p| > 1 ==> 0 < Addr(addrs, blocks, Parent(p)) < |blocks|
    ensures |r.0| == NADDRS && |r.1| == |blocks|
  {
    if |p| == 1 then (addrs[p[0] := f], blocks)
    else
      var a := Addr(addrs, blocks, Parent(p));
      (addrs, blocks[a := SetWord(blocks[a], p[|p| - 1], f)])
  }

  /** Taking a free block changes no slot. */
  lemma {:induction false} TakenAddr(sb: Super, addrs: seq<Word>, blocks: seq<Block>, f: nat, q: Path)
    requires TreeOk(sb, addrs, blocks) && sb.lo <= f < sb.size && !Used(sb, blocks, f) && IsPath(q)
    ensures Addr(addrs, Taken(sb, blocks, f), q) == Addr(addrs, blocks, q)
    decreases |q|
  {
    hide Taken, Used;
    if |q| > 1 {
      TakenAddr(sb, addrs, blocks, f, Parent(q));
      TakenUsed(sb, blocks, f);
    }
  }

  /** Storing an empty, unowned block into an empty slot changes that slot and no other. */
  lemma {:induction false} LinkedAddr(sb: Super, addrs: seq<Word>, blocks: seq<Block>, p: Path, f: Word, q: Path)
    requires TreeOk(sb, addrs, blocks) && IsPath(p) && IsPath(q)
    requires Addr(addrs, blocks, p) == 0 && (|p| > 1 ==> Addr(addrs, blocks, Parent(p)) != 0)
    requires sb.lo <= f < sb.size && blocks[f] == ZeroBlock()
    requires forall r :: IsPath(r) ==> Addr(addrs, blocks, r) != f
    ensures var (addrs', blocks') := SetSlot(addrs, blocks, p, f);
            Addr(addrs', blocks', q) == if q == p then f else Addr(addrs, blocks, q)
    decreases |q|
  {
    hide GetWord, SetWord, Used;
    ZeroWords();
    if |q| > 1 {
      LinkedAddr(sb, addrs, blocks, p, f, Parent(q));
      if Parent(q) == p {
        assert q != p;
      } else if |p| > 1 && Parent(q) == Parent(p) && q[|q| - 1] == p[|p| - 1] {
        assert q == Parent(q) + [q[|q| - 1]] && p == Parent(p) + [p[|p| - 1]];
      }
    }
  }

  /** Tree 2 is tree 1 with the free block f, now zero, in the empty slot p. */
  ghost predicate Stepped(sb: Super, a1: seq<Word>, b1: seq<Block>, a2: seq<Word>, b2: seq<Block>, p: Path, f: Word) {
    && TreeOk(sb, a1, b1) && TreeOk(sb, a2, b2) && IsPath(p)
    && Addr(a1, b1, p) == 0 && (|p| > 1 ==> Addr(a1, b1, Parent(p)) != 0)
    && sb.lo <= f < sb.size && !Used(sb, b1, f)
    && (forall q :: IsPath(q) ==> Addr(a2, b2, q) == if q == p then f as nat else Addr(a1, b1, q))
    && (forall c :: 0 <= c < sb.size ==> Used(sb, b2, c) == (c == f || Used(sb, b1, c)))
    && (forall c :: sb.lo <= c < sb.size && c != f && (|p| > 1 ==> c != Addr(a1, b1, Parent(p))) ==> b2[c] == b1[c])
    && b2[f] == ZeroBlock()
  }

  /** One allocation of bmap: a free block is taken and put into an empty slot. */
  lemma SlotStep(sb: Super, addrs: seq<Word>, blocks: seq<Block>, p: Path, f: Word)
    requires TreeOk(sb, addrs, blocks) && IsPath(p)
    requires Addr(addrs, blocks, p) == 0 && (|p| > 1 ==> Addr(addrs, blocks, Parent(p)) != 0)
    requires sb.lo <= f < sb.size && !Used(sb, blocks, f)
    ensures |p| > 1 ==> Addr(addrs, Taken(sb, blocks, f), Parent(p)) == Addr(addrs, blocks, Parent(p)) < sb.size
    ensures var (addrs', blocks') := SetSlot(addrs, Taken(sb, blocks, f), p, f);
            Stepped(sb, addrs, blocks, addrs', blocks', p, f)
  {
    hide Addr, Used, Taken, SetSlot, Placed, Unshared;
    var taken := Taken(sb, blocks, f);
    TakenTree(sb, addrs, blocks, f);
    LinkedTree(sb, addrs, taken, p, f);
    SlotKept(sb, addrs, taken, p, f);
  }

  /** Taking a free block leaves the tree as it is. */
  lemma TakenTree(sb: Super, addrs: seq<Word>, blocks: seq<Block>, f: nat)
    requires TreeOk(sb, addrs, blocks) && sb.lo <= f < sb.size && !Used(sb, blocks, f)
    ensures var taken := Taken(sb, blocks, f);
            && TreeOk(sb, addrs, taken) && taken[f] == ZeroBlock()
            && (forall q :: IsPath(q) ==> Addr(addrs, taken, q) == Addr(addrs, blocks, q) && Addr(addrs, taken, q) != f)
            && (forall c :: 0 <= c < sb.size ==> Used(sb, taken, c) == (c == f || Used(sb, blocks, c)))
            && (forall c :: sb.lo <= c < sb.size && c != f ==> taken[c] == blocks[c])
  {
    hide Addr, Used, Taken;
    TakenUsed(sb, blocks, f);
    TakenZero(sb, blocks, f);
    forall q | IsPath(q) ensures Addr(addrs, Taken(sb, blocks, f), q) == Addr(addrs, blocks, q) {
      TakenAddr(sb, addrs, blocks, f, q);
    }
  }

  lemma LinkedTree(sb: Super, addrs: seq<Word>, blocks: seq<Block>, p: Path, f: Word)
    requires TreeOk(sb, addrs, blocks) && IsPath(p)
    requires Addr(addrs, blocks, p) == 0 && (|p| > 1 ==> Addr(addrs, blocks, Parent(p)) != 0)
    requires sb.lo <= f < sb.size && Used(sb, blocks, f) && blocks[f] == ZeroBlock()
    requires forall r :: IsPath(r) ==> Addr(addrs, blocks, r) != f
    ensures |p| > 1 ==> Addr(addrs, blocks, Parent(p)) < sb.size
    ensures var (addrs', blocks') := SetSlot(addrs, blocks, p, f);
            && (forall q :: IsPath(q) ==> Addr(addrs', blocks', q) == if q == p then f as nat else Addr(addrs, blocks, q))
            && (forall c :: 0 <= c < sb.size ==> Used(sb, blocks', c) == Used(sb, blocks, c))
            && TreeOk(sb, addrs', blocks')
  {
    hide Addr, Used, SetSlot;
    var (addrs', blocks') := SetSlot(addrs, blocks, p, f);
    forall q | IsPath(q) ensures Addr(addrs', blocks', q) == if q == p then f as nat else Addr(addrs, blocks, q) {
      LinkedAddr(sb, addrs, blocks, p, f, q);
    }
    forall c | 0 <= c < sb.size ensures Used(sb, blocks', c) == Used(sb, blocks, c) {
      SlotUsed(sb, addrs, blocks, p, f, c);
    }
  }

  lemma SlotKept(sb: Super, addrs: seq<Word>, blocks: seq<Block>, p: Path, f: Word)
    requires |addrs| == NADDRS && |blocks| == sb.size && IsPath(p)
    requires |p| > 1 ==> 0 < Addr(addrs, blocks, Parent(p)) < |blocks|
    ensures var blocks' := SetSlot(addrs, blocks, p, f).1;
            forall c :: 0 <= c < sb.size && (|p| > 1 ==> c != Addr(addrs, blocks, Parent(p))) ==> blocks'[c] == blocks[c]
  {
  }

  lemma TakenElsewhere(sb: Super, blocks: seq<Block>, f: nat)
    requires sb.Ok() && |blocks| == sb.size && sb.lo <= f < sb.size
    ensures forall c :: 0 <= c < sb.size && c != f && c != sb.BBlock(f) ==> Taken(sb, blocks, f)[c] == blocks[c]
    ensures sb.bmapstart < sb.lo && SameBelow(sb.bmapstart, blocks, Taken(sb, blocks, f))
  {
    hide PutBit;
    assert f / BPB <= sb.size / BPB;
  }

  lemma TakenZero(sb: Super, blocks: seq<Block>, f: nat)
    requires sb.Ok() && |blocks| == sb.size && f < sb.size
    ensures Taken(sb, blocks, f)[f] == ZeroBlock()
  {
  }

  lemma SlotUsed(sb: Super, addrs: seq<Word>, blocks: seq<Block>, p: Path, f: Word, c: nat)
    requires TreeOk(sb, addrs, blocks) && IsPath(p) && (|p| > 1 ==> Addr(addrs, blocks, Parent(p)) != 0) && c < sb.size
    ensures Used(sb, SetSlot(addrs, blocks, p, f).1, c) == Used(sb, blocks, c)
  {
    hide GetBit, GetWord, SetWord, Addr;
    assert |p| > 1 ==> sb.lo <= Addr(addrs, blocks, Parent(p));
    assert sb.BBlock(c) < sb.lo;
  }

  /* ---------- What one bmap call does to a tree ---------- */

  ghost predicate Owned(addrs: seq<Word>, blocks: seq<Block>, c: nat)
    requires |addrs| == NADDRS
  {
    c != 0 && exists q :: IsPath(q) && Addr(addrs, blocks, q) == c
  }

  ghost predicate IsIndexBlock(addrs: seq<Word>, blocks: seq<Block>, c: nat)
    requires |addrs| == NADDRS
  {
    c != 0 && exists q :: IsPath(q) && !IsLeaf(q) && Addr(addrs, blocks, q) == c
  }

  /** From tree 0 to tree 1 some empty slots among the prefixes of p were filled, with blocks
      that were free, leaves with zero blocks. */
  ghost predicate GrewSlots(sb: Super, a0: seq<Word>, b0: seq<Block>, a1: seq<Word>, b1: seq<Block>, p: Path)
    requires TreeOk(sb, a0, b0) && TreeOk(sb, a1, b1)
  {
    forall q :: IsPath(q) && Addr(a1, b1, q) != Addr(a0, b0, q) ==>
      && q <= p && Addr(a0, b0, q) == 0 && !Used(sb, b0, Addr(a1, b1, q))
      && (IsLeaf(q) ==> b1[Addr(a1, b1, q)] == ZeroBlock())
  }

  /** Exactly those blocks were taken from the free blocks. */
  ghost predicate GrewBits(sb: Super, b0: seq<Block>, a1: seq<Word>, b1: seq<Block>)
    requires sb.Ok() && |a1| == NADDRS && |b0| == |b1| == sb.size
  {
    && (forall c :: 0 <= c < sb.size && Used(sb, b0, c) ==> Used(sb, b1, c))
    && (forall c :: 0 <= c < sb.size && Used(sb, b1, c) && !Used(sb, b0, c) ==> Owned(a1, b1, c))
  }

  /** No block in use changed, except index blocks of the tree itself. */
  ghost predicate GrewKept(sb: Super, a0: seq<Word>, b0: seq<Block>, b1: seq<Block>)
    requires sb.Ok() && |a0| == NADDRS && |b0| == |b1| == sb.size
  {
    forall c :: sb.lo <= c < sb.size && Used(sb, b0, c) && !IsIndexBlock(a0, b0, c) ==> b1[c] == b0[c]
  }

  ghost predicate Grew(sb: Super, a0: seq<Word>, b0: seq<Block>, a1: seq<Word>, b1: seq<Block>, p: Path) {
    && TreeOk(sb, a0, b0) && TreeOk(sb, a1, b1)
    && GrewSlots(sb, a0, b0, a1, b1, p) && GrewBits(sb, b0, a1, b1) && GrewKept(sb, a0, b0, b1)
  }

  lemma GrewNone(sb: Super, a: seq<Word>, b: seq<Block>)
    requires TreeOk(sb, a, b)
    ensures Grew(sb, a, b, a, b, [])
  {
  }

  /** p is one step below the slots that may have been filled so far. */
  predicate Extends(p: Path, p0: Path) {
    IsPath(p) && p0 == p[..|p| - 1]
  }

  lemma GrewStay(sb: Super, a0: seq<Word>, b0: seq<Block>, a1: seq<Word>, b1: seq<Block>, p0: Path, p: Path)
    requires Grew(sb, a0, b0, a1, b1, p0) && Extends(p, p0)
    ensures Grew(sb, a0, b0, a1, b1, p)
  {
    hide Addr, Used, GrewBits, GrewKept, Unshared;
  }

  lemma GrewStep(sb: Super, a0: seq<Word>, b0: seq<Block>, a1: seq<Word>, b1: seq<Block>,
                 a2: seq<Word>, b2: seq<Block>, p0: Path, p: Path, f: Word)
    requires Grew(sb, a0, b0, a1, b1, p0) && Extends(p, p0) && Stepped(sb, a1, b1, a2, b2, p, f)
    ensures Grew(sb, a0, b0, a2, b2, p)
  {
    hide GrewSlots, GrewBits, GrewKept, Stepped;
    StepSlots(sb, a0, b0, a1, b1, a2, b2, p0, p, f);
    StepBits(sb, b0, a1, b1, a2, b2, p, f);
    StepKept(sb, a0, b0, a1, b1, a2, b2, p0, p, f);
  }

  lemma StepSlots(sb: Super, a0: seq<Word>, b0: seq<Block>, a1: seq<Word>, b1: seq<Block>,
                  a2: seq<Word>, b2: seq<Block>, p0: Path, p: Path, f: Word)
    requires Grew(sb, a0, b0, a1, b1, p0) && Extends(p, p0) && Stepped(sb, a1, b1, a2, b2, p, f)
    ensures TreeOk(sb, a2, b2) && GrewSlots(sb, a0, b0, a2, b2, p)
  {
    hide Addr, Used, GrewKept, Unshared, Owned;
    forall q | IsPath(q) && Addr(a2, b2, q) != Addr(a0, b0, q)
      ensures && q <= p && Addr(a0, b0, q) == 0 && !Used(sb, b0, Addr(a2, b2, q))
              && (IsLeaf(q) ==> b2[Addr(a2, b2, q)] == ZeroBlock())
    {
      if q == p {
      } else {
        assert Addr(a1, b1, q) != Addr(a0, b0, q);
        assert q <= p0 && !IsLeaf(q);
      }
    }
  }

  lemma StepBits(sb: Super, b0: seq<Block>, a1: seq<Word>, b1: seq<Block>, a2: seq<Word>, b2: seq<Block>, p: Path, f: Word)
    requires |b0| == sb.size && Stepped(sb, a1, b1, a2, b2, p, f) && GrewBits(sb, b0, a1, b1)
    ensures GrewBits(sb, b0, a2, b2)
  {
    hide Addr, Used, Placed, Unshared;
    forall c | 0 <= c < sb.size && Used(sb, b2, c) && !Used(sb, b0, c) ensures Owned(a2, b2, c) {
      if c == f {
        assert Addr(a2, b2, p) == c;
      } else {
        var q :| IsPath(q) && Addr(a1, b1, q) == c;
        assert Addr(a2, b2, q) == c;
      }
    }
  }

  lemma StepKept(sb: Super, a0: seq<Word>, b0: seq<Block>, a1: seq<Word>, b1: seq<Block>,
                 a2: seq<Word>, b2: seq<Block>, p0: Path, p: Path, f: Word)
    requires Grew(sb, a0, b0, a1, b1, p0) && Extends(p, p0) && Stepped(sb, a1, b1, a2, b2, p, f)
    ensures sb.Ok() && |b2| == sb.size && GrewKept(sb, a0, b0, b2)
  {
    hide Addr, Used, Unshared;
    forall c | sb.lo <= c < sb.size && Used(sb, b0, c) && !IsIndexBlock(a0, b0, c) ensures b2[c] == b0[c] {
      if |p| > 1 {
        var r := Parent(p);
        assert !IsLeaf(r) && Addr(a0, b0, r) != c;
        assert Addr(a1, b1, r) == Addr(a0, b0, r) || !Used(sb, b0, Addr(a1, b1, r));
      }
    }
  }

  /** How many blocks filling p takes: p and the empty slots above it. */
  ghost function Missing(addrs: seq<Word>, blocks: seq<Block>, p: Path): nat
    requires |addrs| == NADDRS && IsPath(p)
    decreases |p|
  {
    if Addr(addrs, blocks, p) != 0 then 0 else if |p| == 1 then 1 else 1 + Missing(addrs, blocks, Parent(p))
  }

  /** A slot can only be filled below slots that are filled. */
  lemma {:induction false} Ancestors(addrs: seq<Word>, blocks: seq<Block>, p: Path, k: nat)
    requires |addrs| == NADDRS && IsPath(p) && 1 <= k <= |p| && Addr(addrs, blocks, p) != 0
    ensures IsPath(p[..k]) && Addr(addrs, blocks, p[..k]) != 0
    decreases |p|
  {
    if k == |p| {
      assert p[..k] == p;
    } else {
      assert Parent(p)[..k] == p[..k];
      Ancestors(addrs, blocks, Parent(p), k);
    }
  }

  /** The first k indices of p lead to a block, and the slot of that block they lead on to is empty. */
  ghost predicate Gap(addrs: seq<Word>, blocks: seq<Block>, p: Path, k: nat)
    requires |addrs| == NADDRS && IsPath(p) && 1 <= k < |p|
  {
    Addr(addrs, blocks, p[..k]) != 0 && Addr(addrs, blocks, p[..k + 1]) == 0
  }

  /** The index blocks that mapping p changes and, below the doubly and triply indirect
      slots, does not log: the one that exists already when a slot in it is filled. */
  ghost function Unlogged(addrs: seq<Word>, blocks: seq<Block>, p: Path): set<nat>
    requires |addrs| == NADDRS && IsPath(p)
  {
    if p[0] <= NDIRECT then {}
    else set k | 1 <= k < |p| && Gap(addrs, blocks, p, k) :: Addr(addrs, blocks, p[..k])
  }

  /** A block taken for a slot that was empty, with its bitmap block; nothing otherwise. */
  function TakenSet(sb: Super, taken: bool, c: nat): set<nat> {
    if taken then {sb.BBlock(c), c} else {}
  }

  /** Block c is what bmap finds in slot q of tree 0, or the free block it puts there. */
  ghost predicate Found(sb: Super, a0: seq<Word>, b0: seq<Block>, q: Path, c: nat, taken: bool)
    requires Sized(sb, a0, b0) && IsPath(q)
  {
    && (taken <==> Addr(a0, b0, q) == 0)
    && (if taken then sb.lo <= c < sb.size && !Used(sb, b0, c) else c == Addr(a0, b0, q))
  }

  lemma FoundThere(sb: Super, a0: seq<Word>, b0: seq<Block>, q: Path)
    requires Sized(sb, a0, b0) && IsPath(q)
    ensures Addr(a0, b0, q) != 0 ==> Found(sb, a0, b0, q, Addr(a0, b0, q), false)
  {
  }

  lemma FoundLogged(sb: Super, a0: seq<Word>, b0: seq<Block>, q: Path, c: nat, taken: bool)
    requires Sized(sb, a0, b0) && IsPath(q) && Found(sb, a0, b0, q, c, taken)
    ensures Addr(a0, b0, q) != 0 ==> TakenSet(sb, taken, c) == {}
  {
  }

  lemma FoundMeans(sb: Super, a0: seq<Word>, b0: seq<Block>, q: Path, c: nat, taken: bool)
    requires Sized(sb, a0, b0) && IsPath(q) && Found(sb, a0, b0, q, c, taken)
    ensures taken <==> Addr(a0, b0, q) == 0
    ensures !taken ==> c == Addr(a0, b0, q)
  {
  }

  /* ---------- Files without slots beyond their size ---------- */

  /** The slots that lead to one of the first nb file blocks are filled, and no others. */
  ghost predicate Tight(addrs: seq<Word>, blocks: seq<Block>, nb: nat)
    requires |addrs| == NADDRS
  {
    forall p :: IsPath(p) ==> (Addr(addrs, blocks, p) != 0 <==> FirstBlock(p) < nb)
  }
}
