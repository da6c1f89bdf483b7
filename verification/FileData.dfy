/** The bytes of a file, read through its block tree. */
module FileData {
  import opened Blocks
  import opened BlockTree

  const MAXBYTES := MAXFILE * BSIZE

  function Splice(c: seq<Byte>, off: nat, s: seq<Byte>): seq<Byte>
    requires off <= |c|
  {
    c[..off] + s + (if off + |s| < |c| then c[off + |s|..] else [])
  }

  /** Every block below size is mapped. */
  ghost predicate NoHoles(addrs: seq<Word>, blocks: seq<Block>, size: nat)
    requires |addrs| == NADDRS
  {
    size <= MAXBYTES && forall bn :: 0 <= bn < MAXFILE && bn * BSIZE < size ==> Addr(addrs, blocks, LeafPath(bn)) != 0
  }

  ghost function ByteAt(addrs: seq<Word>, blocks: seq<Block>, i: nat): Byte
    requires |addrs| == NADDRS && i < MAXBYTES
  {
    var a := Addr(addrs, blocks, LeafPath(i / BSIZE));
    if a == 0 || a >= |blocks| then 0 else blocks[a][i % BSIZE]
  }

  /** The first size bytes of the file. */
  ghost function Content(addrs: seq<Word>, blocks: seq<Block>, size: nat): (c: seq<Byte>)
    requires |addrs| == NADDRS && size <= MAXBYTES
    ensures |c| == size
  {
    seq(size, i requires 0 <= i < size => ByteAt(addrs, blocks, i))
  }

  /** Byte i of the file is byte i % 512 of the block at the address for file block i / 512: one of the ten in the inode,
      or one reached through the singly, doubly or triply indirect block. */
  lemma ContentExactly(a: seq<Word>, b: seq<Block>, size: nat, i: nat)
    requires |a| == 13 && NoHoles(a, b, size) && i < size
    requires forall p :: IsPath(p) ==> Addr(a, b, p) < |b|
    ensures size <= MAXBYTES && var bn := i / 512;
            && (bn < 10 ==> a[bn] < |b| && Content(a, b, size)[i] == b[a[bn]][i % 512])
            && (10 <= bn < 138 ==> a[10] < |b| && var x := GetWord(b[a[10]], bn - 10);
                  x < |b| && Content(a, b, size)[i] == b[x][i % 512])
            && (138 <= bn < 16522 ==> a[11] < |b| && var x := GetWord(b[a[11]], (bn - 138) / 128);
                  x < |b| && var y := GetWord(b[x], (bn - 138) % 128);
                  y < |b| && Content(a, b, size)[i] == b[y][i % 512])
            && (16522 <= bn ==> bn < 2113674 && a[12] < |b| && var x := GetWord(b[a[12]], (bn - 16522) / 16384);
                  x < |b| && var y := GetWord(b[x], (bn - 16522) / 128 % 128);
                  y < |b| && var z := GetWord(b[y], (bn - 16522) % 128);
                  z < |b| && Content(a, b, size)[i] == b[z][i % 512])
  {
    hide Addr, LeafPath, GetWord;
    var bn := i / 512;
    assert bn < MAXFILE && Addr(a, b, LeafPath(bn)) != 0;
    AddrExactly(a, b, bn);
    assert Content(a, b, size)[i] == ByteAt(a, b, i) == b[Addr(a, b, LeafPath(bn))][i % 512];
  }

  function Min(a: int, b: int): int { if a < b then a else b }

  function Max(a: int, b: int): int { if a > b then a else b }

  /** Part of one block is the corresponding part of the file. */
  lemma Chunk(addrs: seq<Word>, blocks: seq<Block>, size: nat, off: nat, m: nat)
    requires |addrs| == NADDRS && off + m <= size <= MAXBYTES && off % BSIZE + m <= BSIZE && 0 < m
    requires 0 < Addr(addrs, blocks, LeafPath(off / BSIZE)) < |blocks|
    ensures Content(addrs, blocks, size)[off..off + m] ==
            blocks[Addr(addrs, blocks, LeafPath(off / BSIZE))][off % BSIZE..off % BSIZE + m]
  {
    hide Addr, LeafPath;
    var x := blocks[Addr(addrs, blocks, LeafPath(off / BSIZE))];
    forall i | off <= i < off + m ensures ByteAt(addrs, blocks, i) == x[off % BSIZE + (i - off)] {
      assert i / BSIZE == off / BSIZE && i % BSIZE == off % BSIZE + (i - off);
    }
  }

  /** Rewriting a data block leaves the tree alone. */
  lemma {:induction false} DataAddr(sb: Super, addrs: seq<Word>, blocks: seq<Block>, p: Path, x: Block, q: Path)
    requires TreeOk(sb, addrs, blocks) && IsLeaf(p) && IsPath(q) && Addr(addrs, blocks, p) != 0
    ensures Addr(addrs, blocks, p) < sb.size
    ensures Addr(addrs, blocks[Addr(addrs, blocks, p) := x], q) == Addr(addrs, blocks, q)
    decreases |q|
  {
    hide Used, GetWord;
    if |q| > 1 {
      DataAddr(sb, addrs, blocks, p, x, Parent(q));
      assert Parent(q) != p;
    }
  }

  lemma DataWritten(sb: Super, addrs: seq<Word>, blocks: seq<Block>, p: Path, x: Block)
    requires TreeOk(sb, addrs, blocks) && IsLeaf(p) && Addr(addrs, blocks, p) != 0
    ensures sb.lo <= Addr(addrs, blocks, p) < sb.size
    ensures var blocks' := blocks[Addr(addrs, blocks, p) := x];
            && (forall q :: IsPath(q) ==> Addr(addrs, blocks', q) == Addr(addrs, blocks, q))
            && (forall c :: 0 <= c < sb.size ==> Used(sb, blocks', c) == Used(sb, blocks, c))
            && TreeOk(sb, addrs, blocks')
  {
    hide Addr, GetBit;
    var blocks' := blocks[Addr(addrs, blocks, p) := x];
    forall q | IsPath(q) ensures Addr(addrs, blocks', q) == Addr(addrs, blocks, q) {
      DataAddr(sb, addrs, blocks, p, x, q);
    }
    assert forall c :: 0 <= c < sb.size ==> sb.BBlock(c) < sb.lo;
  }

  /** b with s written at position k. */
  function Overwrite(b: Block, k: nat, s: seq<Byte>): Block
    requires k + |s| <= BSIZE
  {
    b[..k] + s + b[k + |s|..]
  }

  /** One round of the loop of writei: bmap takes tree 1 to tree 2, then s is stored at off. */
  lemma WriteChunk(sb: Super, a1: seq<Word>, b1: seq<Block>, a2: seq<Word>, b2: seq<Block>, size: nat, off: nat, s: seq<Byte>)
    requires size <= MAXBYTES && off <= size && 0 < |s| && off % BSIZE + |s| <= BSIZE && off + |s| <= MAXBYTES
    requires var p := LeafPath(off / BSIZE);
             && Grew(sb, a1, b1, a2, b2, p) && Addr(a2, b2, p) != 0
             && (Addr(a1, b1, p) != 0 ==> b2 == b1 && a2 == a1)
    requires NoHoles(a1, b1, size)
    ensures var c := Addr(a2, b2, LeafPath(off / BSIZE));
            c < sb.size && |b2| == sb.size &&
            var b3 := b2[c := Overwrite(b2[c], off % BSIZE, s)];
            && TreeOk(sb, a2, b3) && NoHoles(a2, b3, Max(size, off + |s|))
            && (forall d :: 0 <= d < sb.size ==> Used(sb, b3, d) == Used(sb, b2, d))
            && Content(a2, b3, Max(size, off + |s|)) == Splice(Content(a1, b1, size), off, s)
  {
    hide Addr, LeafPath, Used;
    var bn := off / BSIZE;
    var p := LeafPath(bn);
    var c := Addr(a2, b2, p);
    var x := Overwrite(b2[c], off % BSIZE, s);
    var b3 := b2[c := x];
    DataWritten(sb, a2, b2, p, x);
    var size' := Max(size, off + |s|);
    forall m | 0 <= m < MAXFILE && m * BSIZE < size' ensures Addr(a2, b3, LeafPath(m)) != 0 {
      assert m == bn || m * BSIZE < size;
    }
    forall i | 0 <= i < size'
      ensures ByteAt(a2, b3, i) == Splice(Content(a1, b1, size), off, s)[i]
    {
      WrittenByte(sb, a1, b1, a2, b2, size, off, s, i);
    }
  }

  lemma WrittenByte(sb: Super, a1: seq<Word>, b1: seq<Block>, a2: seq<Word>, b2: seq<Block>, size: nat, off: nat, s: seq<Byte>, i: nat)
    requires size <= MAXBYTES && off <= size && 0 < |s| && off % BSIZE + |s| <= BSIZE && off + |s| <= MAXBYTES
    requires i < Max(size, off + |s|)
    requires var p := LeafPath(off / BSIZE);
             && Grew(sb, a1, b1, a2, b2, p) && Addr(a2, b2, p) != 0
             && (Addr(a1, b1, p) != 0 ==> b2 == b1 && a2 == a1)
    requires NoHoles(a1, b1, size)
    ensures var c := Addr(a2, b2, LeafPath(off / BSIZE));
            c < sb.size && |b2| == sb.size &&
            ByteAt(a2, b2[c := Overwrite(b2[c], off % BSIZE, s)], i) == Splice(Content(a1, b1, size), off, s)[i]
  {
    hide Addr, LeafPath, Used, GrewBits, Splice, Overwrite;
    var bn, m := off / BSIZE, i / BSIZE;
    var p, q := LeafPath(bn), LeafPath(m);
    var c, d := Addr(a2, b2, p), Addr(a2, b2, q);
    DataWritten(sb, a2, b2, p, Overwrite(b2[c], off % BSIZE, s));
    SpliceAt(Content(a1, b1, size), off, s, i);
    if m == bn {
      OverwriteAt(b2[c], off, s, i);
    } else {
      OtherBlock(bn, m);
      SameBlock(off, |s|, i);
      assert m * BSIZE < size && Addr(a1, b1, q) != 0;
      assert d == Addr(a1, b1, q) && d != c;
    }
  }

  lemma SpliceAt(c: seq<Byte>, off: nat, s: seq<Byte>, i: nat)
    requires off <= |c| && i < Max(|c|, off + |s|)
    ensures |Splice(c, off, s)| == Max(|c|, off + |s|)
    ensures Splice(c, off, s)[i] == if off <= i < off + |s| then s[i - off] else c[i]
  {
  }

  lemma OverwriteAt(b: Block, off: nat, s: seq<Byte>, i: nat)
    requires off % BSIZE + |s| <= BSIZE && i / BSIZE == off / BSIZE
    ensures Overwrite(b, off % BSIZE, s)[i % BSIZE] == if off <= i < off + |s| then s[i - off] else b[i % BSIZE]
    ensures i < off ==> i / BSIZE * BSIZE < off
  {
    assert i - off == i % BSIZE - off % BSIZE;
  }

  lemma SameBlock(off: nat, n: nat, i: nat)
    requires off % BSIZE + n <= BSIZE && i / BSIZE != off / BSIZE
    ensures !(off <= i < off + n)
  {
  }

  lemma OtherBlock(m: nat, n: nat)
    requires m < MAXFILE && n < MAXFILE && m != n
    ensures LeafPath(m) != LeafPath(n) && !(LeafPath(n) <= LeafPath(m))
  {
    LeafThere(m);
    LeafThere(n);
  }

  /* ---------- Other files ---------- */

  /** From state 0 to state 1 the file with addresses a0 and then a1 touched only its own
      blocks and blocks that were free. */
  ghost predicate Spares(sb: Super, a0: seq<Word>, b0: seq<Block>, a1: seq<Word>, b1: seq<Block>) {
    && TreeOk(sb, a0, b0) && TreeOk(sb, a1, b1)
    && forall c :: sb.lo <= c < sb.size && Used(sb, b0, c) ==>
         && Used(sb, b1, c) && (Owned(a1, b1, c) ==> Owned(a0, b0, c))
         && (!Owned(a0, b0, c) ==> b1[c] == b0[c])
  }

  lemma SparesNone(sb: Super, a: seq<Word>, b: seq<Block>)
    requires TreeOk(sb, a, b)
    ensures Spares(sb, a, b, a, b)
  {
  }

  /** bmap and a store into the block it returns keep it that way. */
  lemma SparesMore(sb: Super, a0: seq<Word>, b0: seq<Block>, a1: seq<Word>, b1: seq<Block>,
                   a2: seq<Word>, b2: seq<Block>, p: Path, x: Block)
    requires Spares(sb, a0, b0, a1, b1) && Grew(sb, a1, b1, a2, b2, p) && IsLeaf(p) && Addr(a2, b2, p) != 0
    ensures Addr(a2, b2, p) < sb.size && Spares(sb, a0, b0, a2, b2[Addr(a2, b2, p) := x])
  {
    hide Addr, Used, Unshared;
    DataWritten(sb, a2, b2, p, x);
    var b3 := b2[Addr(a2, b2, p) := x];
    forall c | sb.lo <= c < sb.size && Used(sb, b0, c)
      ensures Used(sb, b3, c) && (Owned(a2, b3, c) ==> Owned(a0, b0, c)) && (!Owned(a0, b0, c) ==> b3[c] == b0[c])
    {
      if Owned(a2, b3, c) {
        var q :| IsPath(q) && Addr(a2, b3, q) == c;
        assert Addr(a1, b1, q) == c;
      } else {
        assert Addr(a2, b2, p) == Addr(a2, b3, p) != c;
      }
      if IsIndexBlock(a1, b1, c) {
        assert Owned(a1, b1, c);
      }
    }
  }

  ghost predicate Apart(a: seq<Word>, x: seq<Word>, blocks: seq<Block>)
    requires |a| == |x| == NADDRS
  {
    forall q :: IsPath(q) ==> !Owned(a, blocks, Addr(x, blocks, q))
  }

  /** No operation on one file shows in another: its tree, its bytes and the separation stay. */
  lemma OtherFile(sb: Super, a0: seq<Word>, b0: seq<Block>, a1: seq<Word>, b1: seq<Block>, x: seq<Word>, size: nat)
    requires Spares(sb, a0, b0, a1, b1) && TreeOk(sb, x, b0) && Apart(a0, x, b0) && size <= MAXBYTES
    ensures TreeOk(sb, x, b1) && Apart(a1, x, b1)
    ensures Content(x, b1, size) == Content(x, b0, size) && (Snug(x, b0, size) ==> Snug(x, b1, size))
  {
    hide Addr, Used, LeafPath, Snug;
    forall q | IsPath(q) ensures Addr(x, b1, q) == Addr(x, b0, q) {
      OtherAddr(sb, a0, b0, a1, b1, x, q);
    }
    forall i | 0 <= i < size ensures ByteAt(x, b1, i) == ByteAt(x, b0, i) {
      var q := LeafPath(i / BSIZE);
      assert Addr(x, b1, q) == Addr(x, b0, q);
    }
    SnugSame(x, b0, b1, size);
  }

  lemma {:induction false} OtherAddr(sb: Super, a0: seq<Word>, b0: seq<Block>, a1: seq<Word>, b1: seq<Block>, x: seq<Word>, q: Path)
    requires Spares(sb, a0, b0, a1, b1) && TreeOk(sb, x, b0) && Apart(a0, x, b0) && IsPath(q)
    ensures Addr(x, b1, q) == Addr(x, b0, q)
    decreases |q|
  {
    hide Used, GetWord;
    if |q| > 1 {
      OtherAddr(sb, a0, b0, a1, b1, x, Parent(q));
    }
  }

  /** What was written is what is read back. */
  lemma ReadBack(c: seq<Byte>, off: nat, s: seq<Byte>)
    requires off <= |c|
    ensures |Splice(c, off, s)| == Max(|c|, off + |s|) && Splice(c, off, s)[off..off + |s|] == s
    ensures forall i :: 0 <= i < |c| && !(off <= i < off + |s|) ==> Splice(c, off, s)[i] == c[i]
  {
  }

  lemma MetaBits(sb: Super, b: seq<Block>, b': seq<Block>, i: nat)
    requires sb.Ok() && |b| == |b'| == sb.size && i < sb.bmapstart && b' == b[i := b'[i]]
    ensures forall c :: 0 <= c < sb.size ==> Used(sb, b', c) == Used(sb, b, c)
  {
    hide GetBit;
  }

  /** A block below the bitmap, an inode block say, has nothing to do with trees and bits. */
  lemma MetaWrite(sb: Super, a: seq<Word>, b: seq<Block>, i: nat, x: Block)
    requires Sized(sb, a, b) && i < sb.bmapstart
    ensures i < sb.lo
    ensures var b' := b[i := x];
            && (forall c :: 0 <= c < sb.size ==> Used(sb, b', c) == Used(sb, b, c))
            && (forall c :: sb.lo <= c < sb.size ==> b'[c] == b[c])
            && (TreeOk(sb, a, b) ==> TreeOk(sb, a, b') && forall q :: IsPath(q) ==> Addr(a, b', q) == Addr(a, b, q))
  {
    hide Addr, GetBit;
    var b' := b[i := x];
    if TreeOk(sb, a, b) {
      forall q | IsPath(q) ensures Addr(a, b', q) == Addr(a, b, q) {
        MetaAddr(sb, a, b, i, x, q);
      }
    }
  }

  lemma {:induction false} MetaAddr(sb: Super, a: seq<Word>, b: seq<Block>, i: nat, x: Block, q: Path)
    requires TreeOk(sb, a, b) && i < sb.lo && IsPath(q)
    ensures Addr(a, b[i := x], q) == Addr(a, b, q)
    decreases |q|
  {
    hide Used, GetWord, Unshared;
    if |q| > 1 { MetaAddr(sb, a, b, i, x, Parent(q)); }
  }

  /** Equal slots over equal data blocks hold equal bytes. */
  lemma SameBytes(sb: Super, a: seq<Word>, b: seq<Block>, b': seq<Block>, size: nat)
    requires TreeOk(sb, a, b) && |b'| == |b| && size <= MAXBYTES
    requires forall q :: IsPath(q) ==> Addr(a, b', q) == Addr(a, b, q)
    requires forall c :: sb.lo <= c < sb.size ==> b'[c] == b[c]
    ensures Content(a, b', size) == Content(a, b, size) && NoHoles(a, b', size) == NoHoles(a, b, size)
  {
    hide Addr, LeafPath, Used, Unshared;
    forall i | 0 <= i < size ensures ByteAt(a, b', i) == ByteAt(a, b, i) {
      var q := LeafPath(i / BSIZE);
      assert Addr(a, b', q) == Addr(a, b, q);
    }
  }

  /** No slot is filled for blocks beyond the size alone. */
  ghost predicate Snug(addrs: seq<Word>, blocks: seq<Block>, size: nat)
    requires |addrs| == NADDRS
  {
    forall p :: IsPath(p) && Addr(addrs, blocks, p) != 0 ==> FirstBlock(p) * BSIZE < size
  }

  /** With no holes either, the slots filled are those of the blocks that the size takes. */
  lemma SnugTight(addrs: seq<Word>, blocks: seq<Block>, size: nat)
    requires |addrs| == NADDRS && NoHoles(addrs, blocks, size) && Snug(addrs, blocks, size)
    ensures Tight(addrs, blocks, (size + BSIZE - 1) / BSIZE)
  {
    hide Addr, LeafPath, FirstBlock;
    var nb := (size + BSIZE - 1) / BSIZE;
    forall p | IsPath(p) ensures Addr(addrs, blocks, p) != 0 <==> FirstBlock(p) < nb {
      var bn := FirstBlock(p);
      assert bn * BSIZE < size <==> bn < nb;
      FirstLeafPath(p);
      if bn < nb {
        assert LeafPath(bn)[..|p|] == p;
        PathNotEmpty(p);
        Ancestors(addrs, blocks, LeafPath(bn), |p|);
      }
    }
  }

  lemma PathNotEmpty(p: Path)
    requires IsPath(p)
    ensures 1 <= |p|
  {
  }

  lemma SnugSame(addrs: seq<Word>, b1: seq<Block>, b2: seq<Block>, size: nat)
    requires |addrs| == NADDRS && forall q :: IsPath(q) ==> Addr(addrs, b2, q) == Addr(addrs, b1, q)
    ensures Snug(addrs, b1, size) ==> Snug(addrs, b2, size)
  {
    hide Addr, FirstBlock;
  }

  /** One round of writei keeps it so: only slots above the block written are filled. */
  lemma SnugMore(sb: Super, a1: seq<Word>, b1: seq<Block>, a2: seq<Word>, b2: seq<Block>, b3: seq<Block>, size: nat, off: nat, m: nat)
    requires off / BSIZE < MAXFILE && 0 < m && Grew(sb, a1, b1, a2, b2, LeafPath(off / BSIZE)) && Snug(a1, b1, size)
    requires forall q :: IsPath(q) ==> Addr(a2, b3, q) == Addr(a2, b2, q)
    ensures Snug(a2, b3, Max(size, off + m))
  {
    hide Addr, LeafPath, FirstBlock, Used;
    forall p | IsPath(p) && Addr(a2, b3, p) != 0 ensures FirstBlock(p) * BSIZE < Max(size, off + m) {
      if Addr(a2, b2, p) != Addr(a1, b1, p) {
        FirstOfPrefix(p, off / BSIZE);
        assert off / BSIZE * BSIZE <= off;
      }
    }
  }
}
