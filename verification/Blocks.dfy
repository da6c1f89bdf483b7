/** Disk blocks as byte strings, and the 32-bit little-endian words that the
    kernel overlays on them (index blocks and the log header). */
module Blocks {
  const BSIZE := 512
  const NWORDS := 128

  type Byte = x: int | 0 <= x < 256
  type Word = x: int | 0 <= x < 0x1_0000_0000
  type Block = b: seq<Byte> | |b| == BSIZE witness ZeroBlock()

  function ZeroBlock(): (b: seq<Byte>)
    ensures |b| == BSIZE
  {
    seq(BSIZE, _ => 0)
  }

  /** The i-th word of a block. */
  function GetWord(b: Block, i: nat): (w: Word)
    requires i < NWORDS
  {
    (b[4 * i] as int) + 0x100 * (b[4 * i + 1] as int) + 0x1_0000 * (b[4 * i + 2] as int) + 0x100_0000 * (b[4 * i + 3] as int)
  }

  /** A block with its i-th word replaced. */
  function SetWord(b: Block, i: nat, w: Word): (r: Block)
    requires i < NWORDS
    ensures GetWord(r, i) == w
    ensures forall j: nat :: j < NWORDS && j != i ==> GetWord(r, j) == GetWord(b, j)
  {
    FourBytes(w);
    b[4 * i := w % 0x100][4 * i + 1 := (w / 0x100) % 0x100]
     [4 * i + 2 := (w / 0x1_0000) % 0x100][4 * i + 3 := w / 0x100_0000]
  }

  /** A word is stored with its low byte first, and only its four bytes change. */
  lemma WordExactly(b: Block, i: nat, w: Word)
    requires i < 128
    ensures var r := SetWord(b, i, w);
            && r[4 * i] as int == w % 256 && r[4 * i + 1] as int == w / 256 % 256
            && r[4 * i + 2] as int == w / 65536 % 256 && r[4 * i + 3] as int == w / 16777216
            && forall j :: 0 <= j < 512 && !(4 * i <= j < 4 * i + 4) ==> r[j] == b[j]
  {
    FourBytes(w);
  }

  lemma FourBytes(w: Word)
    ensures w == w % 0x100 + 0x100 * (w / 0x100 % 0x100) + 0x1_0000 * (w / 0x1_0000 % 0x100) + 0x100_0000 * (w / 0x100_0000)
    ensures w / 0x100_0000 < 0x100
  {
    assert w / 0x100 / 0x100 == w / 0x1_0000 && w / 0x1_0000 / 0x100 == w / 0x100_0000;
  }

  lemma ZeroWords()
    ensures forall i :: 0 <= i < NWORDS ==> GetWord(ZeroBlock(), i) == 0
  {
  }

  /* ---------- Bits, as the bitmap blocks use them ---------- */

  const BPB := 8 * BSIZE

  /** Bit k of x is set. */
  predicate Bit(x: nat, k: nat) {
    if k == 0 then x % 2 == 1 else Bit(x / 2, k - 1)
  }

  /** x with bit k set, or cleared, by a mask. */
  function SetBit(x: nat, k: nat, v: bool): (y: nat)
    ensures Bit(y, k) == v
    ensures forall n: nat :: k < n && x < Pow2(n) ==> y < Pow2(n)
  {
    if k == 0 then x / 2 * 2 + (if v then 1 else 0)
    else
      assert forall n: nat :: k < n && x < Pow2(n) ==> k - 1 < n - 1 && x / 2 < Pow2(n - 1);
      x % 2 + 2 * SetBit(x / 2, k - 1, v)
  }

  function Pow2(n: nat): nat {
    if n == 0 then 1 else 2 * Pow2(n - 1)
  }

  lemma {:induction false} SetBitElsewhere(x: nat, k: nat, v: bool, j: nat)
    requires j != k
    ensures Bit(SetBit(x, k, v), j) == Bit(x, j)
  {
    var y := SetBit(x, k, v);
    if k == 0 {
      assert y / 2 == x / 2;
    } else {
      var z := SetBit(x / 2, k - 1, v);
      assert y == x % 2 + 2 * z && y / 2 == z && y % 2 == x % 2;
      if j > 0 { SetBitElsewhere(x / 2, k - 1, v, j - 1); }
    }
  }

  predicate GetBit(b: Block, i: nat)
    requires i < BPB
  {
    Bit(b[i / 8], i % 8)
  }

  /** Bit i of a block is bit i % 8, counted from the low end, of byte i / 8. */
  lemma BitExactly(b: Block, i: nat)
    requires i < 4096
    ensures GetBit(b, i) <==> b[i / 8] / [1, 2, 4, 8, 16, 32, 64, 128][i % 8] % 2 == 1
  {
    BitIs(b[i / 8], i % 8);
  }

  lemma {:induction false} BitIs(x: nat, k: nat)
    requires k < 8
    ensures Bit(x, k) <==> x / [1, 2, 4, 8, 16, 32, 64, 128][k] % 2 == 1
  {
    if k > 0 {
      BitIs(x / 2, k - 1);
      Halves(x, k);
    }
  }

  lemma Halves(x: nat, k: nat)
    requires 0 < k < 8
    ensures x / 2 / [1, 2, 4, 8, 16, 32, 64, 128][k - 1] == x / [1, 2, 4, 8, 16, 32, 64, 128][k]
  {
    if k < 4 {} else {}
  }

  function PutBit(b: Block, i: nat, v: bool): (r: Block)
    requires i < BPB
    ensures forall j: nat :: j < BPB ==> GetBit(r, j) == if j == i then v else GetBit(b, j)
  {
    assert Pow2(8) == 256;
    var r: Block := b[i / 8 := SetBit(b[i / 8], i % 8, v)];
    assert forall j: nat :: j < BPB ==> GetBit(r, j) == if j == i then v else GetBit(b, j) by {
      forall j: nat | j < BPB ensures GetBit(r, j) == if j == i then v else GetBit(b, j) {
        if j != i && j / 8 == i / 8 {
          SetBitElsewhere(b[i / 8], i % 8, v, j % 8);
        }
      }
    }
    r
  }
}
