/** itrunc: giving back every block of a file. */
module Truncate {
  import opened Blocks
  import opened BlockTree
  import opened FileData
  import opened Durability
  import opened Capacity
  import opened Files

  import Bio

  predicate ChildOf(q: Path, p: Path) {
    IsPath(q) && |q| == |p| + 1 && q[..|p|] == p
  }

  /** c is the block of one of the slots in gone. */
  ghost predicate Hit(a0: seq<Word>, b0: seq<Block>, gone: set<Path>, c: nat)
    requires |a0| == NADDRS
  {
    exists q :: q in gone && IsPath(q) && Addr(a0, b0, q) == c
  }

  /** b is b0 with the bits of the slots in gone cleared, and that of block 0 if zero is set. */
  ghost predicate Freed(sb: Super, a0: seq<Word>, b0: seq<Block>, b: seq<Block>, gone: set<Path>, zero: bool) {
    && TreeOk(sb, a0, b0) && |b| == sb.size
    && (forall q :: q in gone ==> IsPath(q) && Addr(a0, b0, q) != 0)
    && (forall c :: sb.lo <= c < sb.size ==> b[c] == b0[c])
    && (forall c :: 0 <= c < sb.size ==> (Used(sb, b, c) <==> Used(sb, b0, c) && !Hit(a0, b0, gone, c) && !(zero && c == 0)))
  }

  lemma FreedStep(sb: Super, a0: seq<Word>, b0: seq<Block>, b: seq<Block>, gone: set<Path>, zero: bool, p: Path)
    requires Freed(sb, a0, b0, b, gone, zero) && IsPath(p) && Addr(a0, b0, p) != 0 && p !in gone
    ensures var c := Addr(a0, b0, p);
            c < sb.size && Used(sb, b, c) && Freed(sb, a0, b0, Mark(sb, b, c, false), gone + {p}, zero)
  {
    hide Addr, Used, Mark;
    var x := Addr(a0, b0, p);
    forall q | q in gone ensures Addr(a0, b0, q) != x {
    }
    MarkKept(sb, b, x);
    forall c | 0 <= c < sb.size
      ensures Used(sb, Mark(sb, b, x, false), c) <==> Used(sb, b0, c) && !Hit(a0, b0, gone + {p}, c) && !(zero && c == 0)
    {
      assert Hit(a0, b0, gone + {p}, c) <==> Hit(a0, b0, gone, c) || c == x by {
        if c == x { assert p in gone + {p} && Addr(a0, b0, p) == c; }
        if Hit(a0, b0, gone, c) {
          var q :| q in gone && IsPath(q) && Addr(a0, b0, q) == c;
          assert q in gone + {p};
        }
      }
    }
  }

  lemma MarkKept(sb: Super, b: seq<Block>, x: nat)
    requires sb.Ok() && |b| == sb.size && x < sb.size
    ensures forall c :: 0 <= c < sb.size ==> Used(sb, Mark(sb, b, x, false), c) == (c != x && Used(sb, b, c))
    ensures forall c :: sb.lo <= c < sb.size ==> Mark(sb, b, x, false)[c] == b[c]
  {
    hide GetBit, PutBit;
    forall c | 0 <= c < sb.size ensures Used(sb, Mark(sb, b, x, false), c) == (c != x && Used(sb, b, c)) {
      MarkUsed(sb, b, x, false, c);
    }
  }

  lemma FreedZero(sb: Super, a0: seq<Word>, b0: seq<Block>, b: seq<Block>, gone: set<Path>, zero: bool)
    requires Freed(sb, a0, b0, b, gone, zero) && Used(sb, b0, 0)
    ensures Used(sb, b, 0) <==> !zero
    ensures !zero ==> Freed(sb, a0, b0, Mark(sb, b, 0, false), gone, true)
  {
    hide Addr, Used, Mark;
    MarkKept(sb, b, 0);
  }

  /** Since b and l only bitmap blocks changed, and all that did were logged. */
  ghost predicate OnlyBits(fs: Fs, b: seq<Block>, l: set<nat>)
    reads fs
  {
    && |fs.blocks| == |b| && l <= fs.logged <= l + Bitmap(fs.sb)
    && forall c :: 0 <= c < |b| && fs.blocks[c] != b[c] ==> c in fs.logged && c in Bitmap(fs.sb)
  }

  /** The bitmap blocks of the file. */
  ghost function Maps(sb: Super, a0: seq<Word>, b0: seq<Block>): set<nat>
    requires |a0| == NADDRS
  {
    set c | 0 <= c < sb.size && Owned(a0, b0, c) :: sb.BBlock(c)
  }

  /** Since l0 the bitmap blocks of the slots in gone were logged, and no others but for that of block 0. */
  ghost predicate Noted(fs: Fs, a0: seq<Word>, b0: seq<Block>, l0: set<nat>, gone: set<Path>, zero: bool)
    reads fs
  {
    && |a0| == NADDRS && l0 <= fs.logged && (!zero ==> fs.logged <= l0 + Maps(fs.sb, a0, b0))
    && forall q :: q in gone && IsPath(q) ==> fs.sb.BBlock(Addr(a0, b0, q)) in fs.logged
  }

  /** bread finds a buffer for block x: it is in the cache already, as it is when it is pinned or held, or
      not all buffers are pinned or held. */
  predicate HasBuffer(fs: Fs, held: set<nat>, x: nat)
    reads fs
  {
    x in fs.logged + held || |fs.logged + held| < Bio.NBUF
  }

  /** With so many blocks logged and three more held, which is what itrunc comes to, there may be no buffer left. */
  const SPARE := Bio.NBUF - 3

  /** log_write or bget panics, and not for what was logged beside the bitmap blocks of the file. */
  ghost predicate Halted(fs: Fs, a0: seq<Word>, b0: seq<Block>, l0: set<nat>)
    reads fs
  {
    |a0| == NADDRS && (fs.outstanding == 0 || (|fs.logged| >= SPARE && fs.logged <= l0 + Maps(fs.sb, a0, b0)))
  }

  lemma NoBuffer(fs: Fs, held: set<nat>, x: nat)
    requires |held| <= 3 && !HasBuffer(fs, held, x)
    ensures |fs.logged| >= SPARE
  {
    assert |fs.logged + held| == |fs.logged| + |held| - |fs.logged * held|;
  }

  lemma HaltedMeans(fs: Fs, a0: seq<Word>, b0: seq<Block>, l0: set<nat>)
    requires Halted(fs, a0, b0, l0)
    ensures |a0| == NADDRS && (fs.outstanding == 0 || |l0 + Maps(fs.sb, a0, b0)| >= SPARE)
  {
    hide Maps;
    if fs.outstanding > 0 { Bio.SubsetSize(fs.logged, l0 + Maps(fs.sb, a0, b0)); }
  }

  /** bread panics for want of a buffer. */
  lemma NoRead(fs: Fs, held: set<nat>, x: nat, a0: seq<Word>, b0: seq<Block>, l0: set<nat>, gone: set<Path>)
    requires |held| <= 3 && !HasBuffer(fs, held, x) && Noted(fs, a0, b0, l0, gone, false)
    ensures Halted(fs, a0, b0, l0)
  {
    hide Maps;
    NoBuffer(fs, held, x);
  }

  lemma Three(held: set<nat>, x: nat)
    ensures |held + {x}| <= |held| + 1
  {
    AddedSize(held, x);
  }

  lemma NotedNone(fs: Fs, a0: seq<Word>, b0: seq<Block>)
    requires |a0| == NADDRS
    ensures Noted(fs, a0, b0, fs.logged, {}, false)
  {
  }

  /** With all slots gone it is exactly those of the file. */
  lemma NotedAll(fs: Fs, a0: seq<Word>, b0: seq<Block>, l0: set<nat>, gone: set<Path>)
    requires Noted(fs, a0, b0, l0, gone, false)
    requires forall q :: IsPath(q) && Addr(a0, b0, q) != 0 ==> q in gone
    ensures fs.logged == l0 + Maps(fs.sb, a0, b0)
  {
    hide Addr;
    forall x | x in Maps(fs.sb, a0, b0) ensures x in fs.logged {
      var c :| 0 <= c < fs.sb.size && Owned(a0, b0, c) && fs.sb.BBlock(c) == x;
      var q :| IsPath(q) && Addr(a0, b0, q) == c;
      assert q in gone;
    }
  }

  lemma MapOf(sb: Super, a0: seq<Word>, b0: seq<Block>, p: Path)
    requires |a0| == NADDRS && IsPath(p) && 0 < Addr(a0, b0, p) < sb.size
    ensures sb.BBlock(Addr(a0, b0, p)) in Maps(sb, a0, b0)
  {
    hide Addr;
    assert Owned(a0, b0, Addr(a0, b0, p));
  }

  /** bfree, with what it leaves alone. */
  method FreeBlock(fs: Fs, held: set<nat>, b: nat) returns (ok: bool)
    requires |held| <= 3 && fs.sb.Ok() && |fs.blocks| == fs.sb.size && b < fs.sb.size
    modifies fs`blocks, fs`logged
    ensures ok <==> fs.outstanding >= 1 && |old(fs.logged)| < ROOM && old(Used(fs.sb, fs.blocks, b)) && old(HasBuffer(fs, held, fs.sb.BBlock(b)))
    ensures !ok ==> fs.outstanding == 0 || |fs.logged| >= SPARE || !old(Used(fs.sb, fs.blocks, b))
    ensures ok ==> fs.blocks == Mark(fs.sb, old(fs.blocks), b, false) && fs.logged == old(fs.logged) + {fs.sb.BBlock(b)}
    ensures ok ==> OnlyBits(fs, old(fs.blocks), old(fs.logged))
    ensures |fs.blocks| == fs.sb.size && (!ok ==> fs.logged == old(fs.logged))
  {
    hide GetBit, PutBit;
    assert fs.sb.BBlock(b) in Bitmap(fs.sb);
    ok := HasBuffer(fs, held, fs.sb.BBlock(b));
    if ok {
      ok := fs.Bfree(b);
    } else {
      NoBuffer(fs, held, fs.sb.BBlock(b));
    }
  }

  /** Freeing the block of slot p, which was not freed before, panics only if nothing can be logged. */
  method FreeSlot(fs: Fs, held: set<nat>, x: nat, ghost a0: seq<Word>, ghost b0: seq<Block>, ghost l0: set<nat>, ghost gone: set<Path>, ghost zero: bool,
                  ghost p: Path) returns (ok: bool)
    requires Freed(fs.sb, a0, b0, fs.blocks, gone, zero) && IsPath(p) && p !in gone && x == Addr(a0, b0, p) != 0
    requires |held| <= 3 && Noted(fs, a0, b0, l0, gone, zero)
    modifies fs`blocks, fs`logged
    ensures ok <==> fs.outstanding >= 1 && |old(fs.logged)| < ROOM && old(HasBuffer(fs, held, fs.sb.BBlock(x)))
    ensures ok ==> OnlyBits(fs, old(fs.blocks), old(fs.logged))
    ensures |fs.blocks| == fs.sb.size && (!ok && !zero ==> Halted(fs, a0, b0, l0))
    ensures ok ==> Freed(fs.sb, a0, b0, fs.blocks, gone + {p}, zero) && Noted(fs, a0, b0, l0, gone + {p}, zero)
  {
    hide Freed, Addr, Used, Bitmap, Mark, Maps;
    FreedStep(fs.sb, a0, b0, fs.blocks, gone, zero, p);
    FreedOk(fs.sb, a0, b0, fs.blocks, gone, zero);
    MapOf(fs.sb, a0, b0, p);
    ok := FreeBlock(fs, held, x);
  }

  lemma FreedOk(sb: Super, a0: seq<Word>, b0: seq<Block>, b: seq<Block>, gone: set<Path>, zero: bool)
    requires Freed(sb, a0, b0, b, gone, zero)
    ensures Sized(sb, a0, b0) && |b| == sb.size
    ensures forall p :: IsPath(p) && Addr(a0, b0, p) != 0 ==> sb.lo <= Addr(a0, b0, p) < sb.size && b[Addr(a0, b0, p)] == b0[Addr(a0, b0, p)]
  {
    hide Addr, Used;
  }

  lemma ChildAddr(sb: Super, a0: seq<Word>, b0: seq<Block>, p: Path, j: nat)
    requires TreeOk(sb, a0, b0) && IsPath(p) && !IsLeaf(p) && Addr(a0, b0, p) != 0 && j < NINDIRECT
    ensures ChildOf(p + [j], p) && Addr(a0, b0, p) < sb.size && Addr(a0, b0, p + [j]) == GetWord(b0[Addr(a0, b0, p)], j)
  {
    assert Parent(p + [j]) == p;
  }

  /** The loop over a singly indirect block, or over the last level of a doubly indirect one. */
  method FreeLeaves(fs: Fs, held: set<nat>, bp: nat, ghost a0: seq<Word>, ghost b0: seq<Block>, ghost l0: set<nat>, ghost gone: set<Path>, ghost p: Path)
    returns (ghost gone': set<Path>, ok: bool)
    requires |held| <= 2 && Noted(fs, a0, b0, l0, gone, false)
    requires Freed(fs.sb, a0, b0, fs.blocks, gone, false)
    requires IsPath(p) && !IsLeaf(p) && bp == Addr(a0, b0, p) != 0
    requires forall q :: q in gone ==> !ChildOf(q, p)
    modifies fs`blocks, fs`logged
    ensures ok ==> OnlyBits(fs, old(fs.blocks), old(fs.logged))
    ensures |fs.blocks| == fs.sb.size && (!ok ==> Halted(fs, a0, b0, l0))
    ensures ok ==> Freed(fs.sb, a0, b0, fs.blocks, gone', false) && Noted(fs, a0, b0, l0, gone', false)
    ensures ok ==> forall q :: q in gone' <==> q in gone || (ChildOf(q, p) && Addr(a0, b0, q) != 0)
  {
    hide Freed, Addr, Used, Bitmap, Maps, Halted, Noted, GetWord;
    FreedOk(fs.sb, a0, b0, fs.blocks, gone, false);
    gone', ok := gone, HasBuffer(fs, held, bp);
    if !ok {
      NoRead(fs, held, bp, a0, b0, l0, gone);
      return;
    }
    Three(held, bp);
    var j := 0;
    while j < NINDIRECT
      invariant OnlyBits(fs, old(fs.blocks), old(fs.logged))
      invariant 0 <= j <= NINDIRECT && Freed(fs.sb, a0, b0, fs.blocks, gone', false) && Noted(fs, a0, b0, l0, gone', false)
      invariant forall q :: q in gone' <==> q in gone || (ChildOf(q, p) && q[|p|] < j && Addr(a0, b0, q) != 0)
    {
      FreedOk(fs.sb, a0, b0, fs.blocks, gone', false);
      FreedTree(fs.sb, a0, b0, fs.blocks, gone', false);
      ChildAddr(fs.sb, a0, b0, p, j);
      var x := GetWord(fs.blocks[bp], j);
      if x != 0 {
        ok := FreeSlot(fs, held + {bp}, x, a0, b0, l0, gone', false, p + [j]);
        if !ok {
          return;
        }
        gone' := gone' + {p + [j]};
      }
      assert forall q :: ChildOf(q, p) && q[|p|] == j ==> q == p + [j];
      j := j + 1;
    }
  }

  lemma FreedTree(sb: Super, a0: seq<Word>, b0: seq<Block>, b: seq<Block>, gone: set<Path>, zero: bool)
    requires Freed(sb, a0, b0, b, gone, zero)
    ensures TreeOk(sb, a0, b0)
  {
  }

  predicate Below(q: Path, p: Path) {
    IsPath(q) && |q| > |p| && q[..|p|] == p
  }

  /** The slots below p split by their next index; those below an empty slot are empty. */
  lemma BelowSplit(sb: Super, a0: seq<Word>, b0: seq<Block>, p: Path, i: nat)
    requires TreeOk(sb, a0, b0) && IsPath(p) && !IsLeaf(p) && i < NINDIRECT
    ensures IsPath(p + [i])
    ensures forall q :: Below(q, p) && q[|p|] == i ==> q == p + [i] || Below(q, p + [i])
    ensures forall q :: Below(q, p + [i]) ==> Below(q, p) && q[|p|] == i
    ensures Addr(a0, b0, p + [i]) == 0 ==> forall q :: Below(q, p + [i]) ==> Addr(a0, b0, q) == 0
  {
    hide Addr;
    var r := p + [i];
    forall q | Below(q, p) && q[|p|] == i ensures q == r || Below(q, r) {
      assert q[..|r|] == q[..|p|] + [q[|p|]];
      if |q| == |r| { assert q[..|r|] == q; }
    }
    forall q | Below(q, r) ensures Below(q, p) && q[|p|] == i && (Addr(a0, b0, r) == 0 ==> Addr(a0, b0, q) == 0) {
      assert q[..|p|] == q[..|r|][..|p|] && q[|p|] == q[..|r|][|p|];
      if Addr(a0, b0, q) != 0 { Ancestors(a0, b0, q, |r|); }
    }
  }

  /** The loop over the doubly indirect block. */
  method FreeDouble(fs: Fs, bp: nat, ghost a0: seq<Word>, ghost b0: seq<Block>, ghost l0: set<nat>, ghost gone: set<Path>)
    returns (ghost gone': set<Path>, ok: bool)
    requires Noted(fs, a0, b0, l0, gone, false)
    requires Freed(fs.sb, a0, b0, fs.blocks, gone, false)
    requires Sized(fs.sb, a0, b0) && bp == Addr(a0, b0, [NDIRECT + 1]) != 0
    requires forall q :: q in gone ==> !Below(q, [NDIRECT + 1])
    modifies fs`blocks, fs`logged
    ensures ok ==> OnlyBits(fs, old(fs.blocks), old(fs.logged))
    ensures |fs.blocks| == fs.sb.size && (!ok ==> Halted(fs, a0, b0, l0))
    ensures ok ==> Freed(fs.sb, a0, b0, fs.blocks, gone', false) && Noted(fs, a0, b0, l0, gone', false)
    ensures ok ==> forall q :: q in gone' <==> q in gone || (Below(q, [NDIRECT + 1]) && Addr(a0, b0, q) != 0)
  {
    hide Freed, Addr, Used, Bitmap, Maps, Halted, Noted, GetWord, Placed, Unshared;
    ghost var p := [NDIRECT + 1];
    var held: set<nat> := {};
    FreedOk(fs.sb, a0, b0, fs.blocks, gone, false);
    gone', ok := gone, HasBuffer(fs, held, bp);
    if !ok {
      NoRead(fs, held, bp, a0, b0, l0, gone);
      return;
    }
    Three(held, bp);
    var i := 0;
    while i < NINDIRECT
      invariant |fs.blocks| == fs.sb.size
      invariant OnlyBits(fs, old(fs.blocks), old(fs.logged))
      invariant 0 <= i <= NINDIRECT && Freed(fs.sb, a0, b0, fs.blocks, gone', false) && Noted(fs, a0, b0, l0, gone', false)
      invariant forall q :: q in gone' <==> q in gone || (Below(q, p) && q[1] < i && Addr(a0, b0, q) != 0)
    {
      FreedOk(fs.sb, a0, b0, fs.blocks, gone', false);
      FreedTree(fs.sb, a0, b0, fs.blocks, gone', false);
      ChildAddr(fs.sb, a0, b0, p, i);
      BelowSplit(fs.sb, a0, b0, p, i);
      ghost var r := p + [i];
      ghost var before := gone';
      var mid := GetWord(fs.blocks[bp], i);
      if mid != 0 {
        gone', ok := FreeLeaves(fs, {bp}, mid, a0, b0, l0, gone', r);
        if !ok {
          return;
        }
        ok := FreeSlot(fs, {bp}, mid, a0, b0, l0, gone', false, r);
        if !ok {
          return;
        }
        gone' := gone' + {r};
      }
      assert forall q :: Below(q, r) ==> ChildOf(q, r);
      i := i + 1;
    }
  }

  /* ---------- The triple level, whose innermost loop does not test for zero ---------- */

  /** No slot of the lowest index block p is empty. */
  ghost predicate LowFull(a0: seq<Word>, b0: seq<Block>, p: Path)
    requires |a0| == NADDRS && IsPath(p) && !IsLeaf(p)
  {
    forall q :: ChildOf(q, p) ==> Addr(a0, b0, q) != 0
  }

  predicate IsLow(p: Path) {
    IsPath(p) && |p| == 3 && p[0] == NDIRECT + 2
  }

  /** Every lowest index block of the triple tree is full. */
  ghost predicate TripleFull(a0: seq<Word>, b0: seq<Block>)
    requires |a0| == NADDRS
  {
    forall p :: IsLow(p) && Addr(a0, b0, p) != 0 ==> LowFull(a0, b0, p)
  }

  /** The file block with which the triple tree begins. */
  const FIRST := NDIRECT + NINDIRECT + NINDIRECT * NINDIRECT

  /** With the slots filled that lead to the first nb blocks, either none is in the triple tree or the last of its lowest
      index blocks is full. */
  lemma TripleFullIff(a0: seq<Word>, b0: seq<Block>, nb: nat)
    requires |a0| == NADDRS && Tight(a0, b0, nb) && nb <= MAXFILE
    ensures TripleFull(a0, b0) <==> nb <= 16522 || (nb - 16522) % 128 == 0
  {
    hide Addr, FirstBlock;
    if nb <= FIRST || (nb - FIRST) % NINDIRECT == 0 {
      forall p, q | IsLow(p) && Addr(a0, b0, p) != 0 && ChildOf(q, p) ensures Addr(a0, b0, q) != 0 {
        LowSlots(p, q);
        LowRow(nb, FirstBlock(p), q[3]);
      }
    } else {
      var p, q := HalfRow(nb);
    }
  }

  /** The lowest index block of the last file block, which is not full, and its first empty slot. */
  lemma HalfRow(nb: nat) returns (p: Path, q: Path)
    requires FIRST < nb <= MAXFILE && (nb - FIRST) % NINDIRECT != 0
    ensures IsLow(p) && ChildOf(q, p) && IsPath(q) && FirstBlock(p) < nb <= FirstBlock(q)
  {
    var i, j, k := (nb - FIRST) / (NINDIRECT * NINDIRECT), (nb - FIRST) % (NINDIRECT * NINDIRECT) / NINDIRECT, (nb - FIRST) % NINDIRECT;
    ThreeDigits(nb - FIRST);
    p, q := [NDIRECT + 2, i, j], [NDIRECT + 2, i, j, k];
    assert IsLow(p) && ChildOf(q, p);
    LowSlots(p, q);
  }

  lemma RowsIff(a0: seq<Word>, b0: seq<Block>, size: nat)
    requires |a0| == NADDRS
    ensures var nb := (size + 511) / 512;
            NoHoles(a0, b0, size) && Snug(a0, b0, size) ==> (TripleFull(a0, b0) <==> nb <= 16522 || (nb - 16522) % 128 == 0)
  {
    if NoHoles(a0, b0, size) && Snug(a0, b0, size) {
      SnugTight(a0, b0, size);
      TripleFullIff(a0, b0, (size + BSIZE - 1) / BSIZE);
    }
  }

  lemma LowSlots(p: Path, q: Path)
    requires IsLow(p) && ChildOf(q, p)
    ensures FirstBlock(q) == FirstBlock(p) + q[3]
    ensures FirstBlock(p) >= FIRST && (FirstBlock(p) - FIRST) % NINDIRECT == 0
  {
    assert forall x :: 0 <= x < 3 ==> q[x] == p[x];
  }

  lemma LowRow(nb: nat, b: nat, k: nat)
    requires b < nb && k < NINDIRECT && b >= FIRST && (b - FIRST) % NINDIRECT == 0 && (nb - FIRST) % NINDIRECT == 0
    ensures b + k < nb
  {
  }

  method FreeLow(fs: Fs, held: set<nat>, bp: nat, ghost a0: seq<Word>, ghost b0: seq<Block>, ghost l0: set<nat>, ghost gone: set<Path>, ghost zero: bool, ghost p: Path)
    returns (ghost gone': set<Path>, ghost zero': bool, ok: bool)
    requires |held| <= 2 && Noted(fs, a0, b0, l0, gone, zero)
    requires Freed(fs.sb, a0, b0, fs.blocks, gone, zero)
    requires Sized(fs.sb, a0, b0) && IsLow(p) && bp == Addr(a0, b0, p) != 0 && Used(fs.sb, b0, 0)
    requires forall q :: q in gone ==> !ChildOf(q, p)
    modifies fs`blocks, fs`logged
    ensures ok ==> OnlyBits(fs, old(fs.blocks), old(fs.logged))
    ensures |fs.blocks| == fs.sb.size
    ensures ok ==> Freed(fs.sb, a0, b0, fs.blocks, gone', zero') && Noted(fs, a0, b0, l0, gone', zero')
    ensures ok ==> forall q :: q in gone' <==> q in gone || (ChildOf(q, p) && Addr(a0, b0, q) != 0)
    ensures ok ==> (zero' <==> zero || !LowFull(a0, b0, p))
    ensures !ok ==> zero || !LowFull(a0, b0, p) || Halted(fs, a0, b0, l0)
  {
    hide Freed, Addr, Used, Bitmap, Maps, GetWord, Mark, Placed, Unshared;
    gone', zero', ok := gone, zero, HasBuffer(fs, held, bp);
    FreedOk(fs.sb, a0, b0, fs.blocks, gone, zero);
    if !ok {
      if !zero { NoRead(fs, held, bp, a0, b0, l0, gone); }
      return;
    }
    Three(held, bp);
    var k := 0;
    while k < NINDIRECT
      invariant OnlyBits(fs, old(fs.blocks), old(fs.logged))
      invariant |fs.blocks| == fs.sb.size
      invariant 0 <= k <= NINDIRECT && Freed(fs.sb, a0, b0, fs.blocks, gone', zero') && Noted(fs, a0, b0, l0, gone', zero')
      invariant forall q :: q in gone' <==> q in gone || (ChildOf(q, p) && q[3] < k && Addr(a0, b0, q) != 0)
      invariant zero' <==> zero || exists q :: ChildOf(q, p) && q[3] < k && Addr(a0, b0, q) == 0
    {
      FreedOk(fs.sb, a0, b0, fs.blocks, gone', zero');
      FreedTree(fs.sb, a0, b0, fs.blocks, gone', zero');
      ChildAddr(fs.sb, a0, b0, p, k);
      ghost var q0 := p + [k];
      assert forall q :: ChildOf(q, p) && q[3] == k ==> q == q0;
      var x := GetWord(fs.blocks[bp], k);
      if x == 0 {
        FreedZero(fs.sb, a0, b0, fs.blocks, gone', zero');
      } else {
        FreedStep(fs.sb, a0, b0, fs.blocks, gone', zero', q0);
        MapOf(fs.sb, a0, b0, q0);
      }
      ok := FreeBlock(fs, held + {bp}, x);
      if !ok {
        return;
      }
      if x == 0 {
        zero' := true;
      } else {
        gone' := gone' + {q0};
      }
      k := k + 1;
    }
  }

  method FreeMid(fs: Fs, held: set<nat>, bp: nat, ghost a0: seq<Word>, ghost b0: seq<Block>, ghost l0: set<nat>, ghost gone: set<Path>, ghost zero: bool, ghost p: Path)
    returns (ghost gone': set<Path>, ghost zero': bool, ok: bool)
    requires |held| <= 1 && Noted(fs, a0, b0, l0, gone, zero)
    requires Freed(fs.sb, a0, b0, fs.blocks, gone, zero)
    requires Sized(fs.sb, a0, b0) && IsPath(p) && |p| == 2 && p[0] == NDIRECT + 2
    requires bp == Addr(a0, b0, p) != 0 && Used(fs.sb, b0, 0)
    requires forall q :: q in gone ==> !Below(q, p)
    requires zero ==> !TripleFull(a0, b0)
    requires !zero ==> forall q :: q in gone && IsLow(q) ==> LowFull(a0, b0, q)
    modifies fs`blocks, fs`logged
    ensures ok ==> OnlyBits(fs, old(fs.blocks), old(fs.logged))
    ensures |fs.blocks| == fs.sb.size
    ensures ok ==> Freed(fs.sb, a0, b0, fs.blocks, gone', zero') && Noted(fs, a0, b0, l0, gone', zero')
    ensures ok ==> forall q :: q in gone' <==> q in gone || (Below(q, p) && Addr(a0, b0, q) != 0)
    ensures ok && zero' ==> !TripleFull(a0, b0)
    ensures !ok ==> !TripleFull(a0, b0) || Halted(fs, a0, b0, l0)
    ensures ok && !zero' ==> forall q :: q in gone' && IsLow(q) ==> LowFull(a0, b0, q)
  {
    hide Freed, Addr, Used, Bitmap, Maps, Halted, Noted, GetWord, Placed, Unshared, LowFull;
    gone', zero', ok := gone, zero, HasBuffer(fs, held, bp);
    FreedOk(fs.sb, a0, b0, fs.blocks, gone, zero);
    if !ok {
      if !zero { NoRead(fs, held, bp, a0, b0, l0, gone); }
      return;
    }
    Three(held, bp);
    var j := 0;
    while j < NINDIRECT
      invariant OnlyBits(fs, old(fs.blocks), old(fs.logged))
      invariant |fs.blocks| == fs.sb.size
      invariant 0 <= j <= NINDIRECT && Freed(fs.sb, a0, b0, fs.blocks, gone', zero') && Noted(fs, a0, b0, l0, gone', zero')
      invariant forall q :: q in gone' <==> q in gone || (Below(q, p) && q[2] < j && Addr(a0, b0, q) != 0)
      invariant zero' ==> !TripleFull(a0, b0)
      invariant !zero' ==> forall q :: q in gone' && IsLow(q) ==> LowFull(a0, b0, q)
    {
      FreedOk(fs.sb, a0, b0, fs.blocks, gone', zero');
      FreedTree(fs.sb, a0, b0, fs.blocks, gone', zero');
      ChildAddr(fs.sb, a0, b0, p, j);
      BelowSplit(fs.sb, a0, b0, p, j);
      ghost var r := p + [j];
      assert forall q :: Below(q, r) ==> ChildOf(q, r);
      var low := GetWord(fs.blocks[bp], j);
      if low != 0 {
        gone', zero', ok := FreeLow(fs, held + {bp}, low, a0, b0, l0, gone', zero', r);
        if !ok {
          return;
        }
        ok := FreeSlot(fs, held + {bp}, low, a0, b0, l0, gone', zero', r);
        if !ok {
          return;
        }
        gone' := gone' + {r};
      }
      j := j + 1;
    }
  }

  /** The loops over the triply indirect block. */
  method FreeTriple(fs: Fs, bp: nat, ghost a0: seq<Word>, ghost b0: seq<Block>, ghost l0: set<nat>, ghost gone: set<Path>)
    returns (ghost gone': set<Path>, ghost zero': bool, ok: bool)
    requires Noted(fs, a0, b0, l0, gone, false)
    requires Freed(fs.sb, a0, b0, fs.blocks, gone, false)
    requires Sized(fs.sb, a0, b0) && bp == Addr(a0, b0, [NDIRECT + 2]) != 0 && Used(fs.sb, b0, 0)
    requires forall q :: q in gone ==> !Below(q, [NDIRECT + 2])
    modifies fs`blocks, fs`logged
    ensures ok ==> OnlyBits(fs, old(fs.blocks), old(fs.logged))
    ensures |fs.blocks| == fs.sb.size
    ensures ok ==> Freed(fs.sb, a0, b0, fs.blocks, gone', zero') && Noted(fs, a0, b0, l0, gone', zero')
    ensures ok ==> forall q :: q in gone' <==> q in gone || (Below(q, [NDIRECT + 2]) && Addr(a0, b0, q) != 0)
    ensures ok ==> (!zero' <==> TripleFull(a0, b0))
    ensures !ok ==> !TripleFull(a0, b0) || Halted(fs, a0, b0, l0)
  {
    hide Freed, Addr, Used, Bitmap, Maps, Halted, Noted, GetWord, Placed, Unshared, LowFull;
    ghost var p := [NDIRECT + 2];
    var held: set<nat> := {};
    gone', zero', ok := gone, false, HasBuffer(fs, held, bp);
    assert forall q :: q in gone && IsLow(q) ==> Below(q, p);
    FreedOk(fs.sb, a0, b0, fs.blocks, gone, false);
    if !ok {
      NoRead(fs, held, bp, a0, b0, l0, gone);
      return;
    }
    var i := 0;
    while i < NINDIRECT
      invariant OnlyBits(fs, old(fs.blocks), old(fs.logged))
      invariant |fs.blocks| == fs.sb.size
      invariant 0 <= i <= NINDIRECT && Freed(fs.sb, a0, b0, fs.blocks, gone', zero') && Noted(fs, a0, b0, l0, gone', zero')
      invariant forall q :: q in gone' <==> q in gone || (Below(q, p) && q[1] < i && Addr(a0, b0, q) != 0)
      invariant zero' ==> !TripleFull(a0, b0)
      invariant !zero' ==> forall q :: q in gone' && IsLow(q) ==> LowFull(a0, b0, q)
    {
      FreedOk(fs.sb, a0, b0, fs.blocks, gone', zero');
      FreedTree(fs.sb, a0, b0, fs.blocks, gone', zero');
      ChildAddr(fs.sb, a0, b0, p, i);
      BelowSplit(fs.sb, a0, b0, p, i);
      ghost var r := p + [i];
      var mid := GetWord(fs.blocks[bp], i);
      if mid != 0 {
        gone', zero', ok := FreeMid(fs, {bp}, mid, a0, b0, l0, gone', zero', r);
        if !ok {
          return;
        }
        ok := FreeSlot(fs, {bp}, mid, a0, b0, l0, gone', zero', r);
        if !ok {
          return;
        }
        gone' := gone' + {r};
      }
      i := i + 1;
    }
    assert forall q :: IsLow(q) ==> Below(q, p);
  }

  /** Exactly the blocks of the file became free. */
  ghost predicate GaveBack(sb: Super, a0: seq<Word>, b0: seq<Block>, b: seq<Block>)
    requires Sized(sb, a0, b0) && |b| == sb.size
  {
    && (forall c :: 0 <= c < sb.size ==> (Used(sb, b, c) <==> Used(sb, b0, c) && !Owned(a0, b0, c)))
    && (forall c :: sb.lo <= c < sb.size ==> b[c] == b0[c])
  }

  lemma GaveBackMeans(sb: Super, a0: seq<Word>, b0: seq<Block>, b: seq<Block>)
    requires Sized(sb, a0, b0) && |b| == sb.size
    ensures GaveBack(sb, a0, b0, b) ==> forall c :: 0 <= c < sb.size ==> (Used(sb, b, c) <==> Used(sb, b0, c) && !Owned(a0, b0, c))
    ensures GaveBack(sb, a0, b0, b) ==> forall c :: sb.lo <= c < sb.size ==> b[c] == b0[c]
  {
    hide Used, Owned;
  }

  lemma AllFreed(sb: Super, a0: seq<Word>, b0: seq<Block>, b: seq<Block>, gone: set<Path>, zero: bool)
    requires Freed(sb, a0, b0, b, gone, zero) && Used(sb, b0, 0)
    requires forall q :: IsPath(q) && Addr(a0, b0, q) != 0 ==> q in gone
    ensures GaveBack(sb, a0, b0, b) <==> !zero
  {
    hide Addr, Used;
    forall c | 0 <= c < sb.size ensures Owned(a0, b0, c) <==> Hit(a0, b0, gone, c) {
      if Owned(a0, b0, c) {
        var q :| IsPath(q) && Addr(a0, b0, q) == c;
        assert q in gone;
      }
    }
  }

  lemma RootAddr(a0: seq<Word>, b0: seq<Block>, r: nat)
    requires |a0| == NADDRS && r < NADDRS
    ensures IsPath([r]) && Addr(a0, b0, [r]) == a0[r] as nat
    ensures a0[r] == 0 ==> forall q :: IsPath(q) && q[0] == r ==> Addr(a0, b0, q) == 0
    ensures forall q :: IsPath(q) && q[0] == r ==> q == [r] || Below(q, [r])
  {
    forall q | IsPath(q) && q[0] == r ensures (a0[r] == 0 ==> Addr(a0, b0, q) == 0) && (q == [r] || Below(q, [r])) {
      assert q[..1] == [r];
      if Addr(a0, b0, q) != 0 { Ancestors(a0, b0, q, 1); }
    }
  }

  /** What is left is the empty file, in a file system whose metadata blocks are still in use. */
  lemma EmptyFile(sb: Super, a0: seq<Word>, b0: seq<Block>, b: seq<Block>, a: seq<Word>)
    requires TreeOk(sb, a0, b0) && |b| == sb.size && |a| == NADDRS && forall i :: 0 <= i < NADDRS ==> a[i] == 0
    requires forall c :: 0 <= c < sb.lo ==> Used(sb, b0, c)
    ensures TreeOk(sb, a, b) && NoHoles(a, b, 0) && Snug(a, b, 0)
    ensures GaveBack(sb, a0, b0, b) ==> forall c :: 0 <= c < sb.lo ==> Used(sb, b, c)
  {
    hide Addr, Used;
    forall q | IsPath(q) ensures Addr(a, b, q) == 0 {
      RootAddr(a, b, q[0]);
    }
  }

  /** The first r addresses of the inode have been cleared and all that hung below them is free. */
  ghost predicate Cleared(a0: seq<Word>, b0: seq<Block>, addrs: seq<Word>, gone: set<Path>, r: nat)
    requires |a0| == NADDRS
  {
    && |addrs| == NADDRS && (forall j :: 0 <= j < NADDRS ==> addrs[j] == if j < r then 0 else a0[j])
    && (forall q :: q in gone <==> IsPath(q) && q[0] < r && Addr(a0, b0, q) != 0)
  }

  method TruncDirect(fs: Fs, ip: Inode, ghost a0: seq<Word>, ghost b0: seq<Block>, ghost l0: set<nat>) returns (ghost gone: set<Path>, ok: bool)
    requires TreeOk(fs.sb, a0, b0) && a0 == ip.addrs && b0 == fs.blocks && l0 == fs.logged
    modifies fs`blocks, fs`logged, ip`addrs
    ensures ok ==> OnlyBits(fs, old(fs.blocks), old(fs.logged))
    ensures |fs.blocks| == fs.sb.size && (!ok ==> Halted(fs, a0, b0, l0))
    ensures ok ==> Freed(fs.sb, a0, b0, fs.blocks, gone, false) && Noted(fs, a0, b0, l0, gone, false) && Cleared(a0, b0, ip.addrs, gone, NDIRECT)
  {
    hide Freed, Addr, Used, Bitmap, Maps, Halted, Noted, Placed, Unshared;
    gone, ok := {}, true;
    NotedNone(fs, a0, b0);
    FreedNone(fs.sb, a0, b0);
    var i := 0;
    while i < NDIRECT
      invariant OnlyBits(fs, old(fs.blocks), old(fs.logged))
      invariant 0 <= i <= NDIRECT && Freed(fs.sb, a0, b0, fs.blocks, gone, false) && Noted(fs, a0, b0, l0, gone, false) && Cleared(a0, b0, ip.addrs, gone, i)
    {
      RootAddr(a0, b0, i);
      assert forall q :: IsPath(q) && q[0] == i ==> q == [i];
      if ip.addrs[i] != 0 {
        ok := FreeSlot(fs, {}, ip.addrs[i], a0, b0, l0, gone, false, [i]);
        if !ok {
          return;
        }
        gone := gone + {[i]};
        ip.addrs := ip.addrs[i := 0];
      }
      i := i + 1;
    }
  }

  method TruncSingle(fs: Fs, ip: Inode, ghost a0: seq<Word>, ghost b0: seq<Block>, ghost l0: set<nat>, ghost gone: set<Path>) returns (ghost gone': set<Path>, ok: bool)
    requires Sized(fs.sb, a0, b0)
    requires Noted(fs, a0, b0, l0, gone, false)
    requires Freed(fs.sb, a0, b0, fs.blocks, gone, false) && Cleared(a0, b0, ip.addrs, gone, NDIRECT)
    modifies fs`blocks, fs`logged, ip`addrs
    ensures ok ==> OnlyBits(fs, old(fs.blocks), old(fs.logged))
    ensures |fs.blocks| == fs.sb.size && (!ok ==> Halted(fs, a0, b0, l0))
    ensures ok ==> Freed(fs.sb, a0, b0, fs.blocks, gone', false) && Noted(fs, a0, b0, l0, gone', false) && Cleared(a0, b0, ip.addrs, gone', NDIRECT + 1)
  {
    hide Freed, Addr, Used, Bitmap, Maps, Halted, Noted, Placed, Unshared;
    gone', ok := gone, true;
    FreedOk(fs.sb, a0, b0, fs.blocks, gone, false);
    RootAddr(a0, b0, NDIRECT);
    assert forall q :: Below(q, [NDIRECT]) <==> ChildOf(q, [NDIRECT]);
    if ip.addrs[NDIRECT] != 0 {
      gone', ok := FreeLeaves(fs, {}, ip.addrs[NDIRECT], a0, b0, l0, gone', [NDIRECT]);
      if !ok {
        return;
      }
      ok := FreeSlot(fs, {}, ip.addrs[NDIRECT], a0, b0, l0, gone', false, [NDIRECT]);
      if !ok {
        return;
      }
      gone' := gone' + {[NDIRECT]};
      ip.addrs := ip.addrs[NDIRECT := 0];
    }
  }

  method TruncDouble(fs: Fs, ip: Inode, ghost a0: seq<Word>, ghost b0: seq<Block>, ghost l0: set<nat>, ghost gone: set<Path>) returns (ghost gone': set<Path>, ok: bool)
    requires Sized(fs.sb, a0, b0)
    requires Noted(fs, a0, b0, l0, gone, false)
    requires Freed(fs.sb, a0, b0, fs.blocks, gone, false) && Cleared(a0, b0, ip.addrs, gone, NDIRECT + 1)
    modifies fs`blocks, fs`logged, ip`addrs
    ensures ok ==> OnlyBits(fs, old(fs.blocks), old(fs.logged))
    ensures |fs.blocks| == fs.sb.size && (!ok ==> Halted(fs, a0, b0, l0))
    ensures ok ==> Freed(fs.sb, a0, b0, fs.blocks, gone', false) && Noted(fs, a0, b0, l0, gone', false) && Cleared(a0, b0, ip.addrs, gone', NDIRECT + 2)
  {
    hide Freed, Addr, Used, Bitmap, Maps, Halted, Noted, Placed, Unshared;
    gone', ok := gone, true;
    FreedOk(fs.sb, a0, b0, fs.blocks, gone, false);
    RootAddr(a0, b0, NDIRECT + 1);
    if ip.addrs[NDIRECT + 1] != 0 {
      gone', ok := FreeDouble(fs, ip.addrs[NDIRECT + 1], a0, b0, l0, gone');
      if !ok {
        return;
      }
      ok := FreeSlot(fs, {}, ip.addrs[NDIRECT + 1], a0, b0, l0, gone', false, [NDIRECT + 1]);
      if !ok {
        return;
      }
      gone' := gone' + {[NDIRECT + 1]};
      ip.addrs := ip.addrs[NDIRECT + 1 := 0];
    }
  }

  method TruncTriple(fs: Fs, ip: Inode, ghost a0: seq<Word>, ghost b0: seq<Block>, ghost l0: set<nat>, ghost gone: set<Path>)
    returns (ghost gone': set<Path>, ghost zero: bool, ok: bool)
    requires Sized(fs.sb, a0, b0) && Used(fs.sb, b0, 0)
    requires Noted(fs, a0, b0, l0, gone, false)
    requires Freed(fs.sb, a0, b0, fs.blocks, gone, false) && Cleared(a0, b0, ip.addrs, gone, NDIRECT + 2)
    modifies fs`blocks, fs`logged, ip`addrs
    ensures ok ==> OnlyBits(fs, old(fs.blocks), old(fs.logged))
    ensures |fs.blocks| == fs.sb.size && (!ok ==> !TripleFull(a0, b0) || Halted(fs, a0, b0, l0))
    ensures ok ==> Freed(fs.sb, a0, b0, fs.blocks, gone', zero) && Noted(fs, a0, b0, l0, gone', zero)
    ensures ok ==> Cleared(a0, b0, ip.addrs, gone', NADDRS) && (!zero <==> TripleFull(a0, b0))
  {
    hide Freed, Addr, Used, Bitmap, Maps, Halted, Noted, Placed, Unshared, TripleFull;
    gone', zero, ok := gone, false, true;
    FreedOk(fs.sb, a0, b0, fs.blocks, gone, false);
    RootAddr(a0, b0, NDIRECT + 2);
    if ip.addrs[NDIRECT + 2] != 0 {
      gone', zero, ok := FreeTriple(fs, ip.addrs[NDIRECT + 2], a0, b0, l0, gone');
      if !ok {
        return;
      }
      ok := FreeSlot(fs, {}, ip.addrs[NDIRECT + 2], a0, b0, l0, gone', zero, [NDIRECT + 2]);
      if !ok {
        return;
      }
      gone' := gone' + {[NDIRECT + 2]};
      ip.addrs := ip.addrs[NDIRECT + 2 := 0];
    } else {
      NoTriple(a0, b0);
    }
  }

  /** All of itrunc but for the inode. */
  method FreeAll(fs: Fs, ip: Inode) returns (ok: bool)
    requires fs.Valid() && TreeOk(fs.sb, ip.addrs, fs.blocks)
    modifies fs`blocks, fs`logged, ip`addrs
    ensures ok ==> OnlyBits(fs, old(fs.blocks), old(fs.logged))
    ensures |fs.blocks| == fs.sb.size && Sized(fs.sb, old(ip.addrs), old(fs.blocks))
    ensures ok ==> (GaveBack(fs.sb, old(ip.addrs), old(fs.blocks), fs.blocks) <==> TripleFull(old(ip.addrs), old(fs.blocks)))
    ensures ok && TripleFull(old(ip.addrs), old(fs.blocks)) ==> fs.logged == old(fs.logged) + old(Maps(fs.sb, ip.addrs, fs.blocks))
    ensures !ok ==> !TripleFull(old(ip.addrs), old(fs.blocks)) || Halted(fs, old(ip.addrs), old(fs.blocks), old(fs.logged))
    ensures ok ==> |ip.addrs| == NADDRS && forall i :: 0 <= i < NADDRS ==> ip.addrs[i] == 0
  {
    hide Freed, Addr, Used, Bitmap, Placed, Unshared, TripleFull, GaveBack, NoHoles, Maps, Halted, Noted;
    ghost var a0, b0, l0, zero := ip.addrs, fs.blocks, fs.logged, false;
    ghost var gone;
    gone, ok := TruncDirect(fs, ip, a0, b0, l0);
    if !ok {
      return;
    }
    gone, ok := TruncSingle(fs, ip, a0, b0, l0, gone);
    if !ok {
      return;
    }
    gone, ok := TruncDouble(fs, ip, a0, b0, l0, gone);
    if !ok {
      return;
    }
    gone, zero, ok := TruncTriple(fs, ip, a0, b0, l0, gone);
    if !ok {
      return;
    }
    AllFreed(fs.sb, a0, b0, fs.blocks, gone, zero);
    if !zero { NotedAll(fs, a0, b0, l0, gone); }
  }

  /** itrunc. Unless it panics, it gives back exactly the blocks of the file, each once, if and only if no lowest index
      block of the triple tree has an empty slot. With such a tree it does not panic in a transaction with room in the log,
      and in the cache, for the bitmap blocks of the file and for the inode. */
  method Itrunc(fs: Fs, ip: Inode) returns (ok: bool)
    requires fs.Valid() && fs.Homed(ip) && TreeOk(fs.sb, ip.addrs, fs.blocks)
    modifies fs`blocks, fs`logged, ip`addrs, ip`size
    ensures |fs.blocks| == fs.sb.size && Sized(fs.sb, old(ip.addrs), old(fs.blocks))
    ensures ok ==> (GaveBack(fs.sb, old(ip.addrs), old(fs.blocks), fs.blocks) <==> TripleFull(old(ip.addrs), old(fs.blocks)))
    // so without such a slot what is in use afterwards is what was, but for the blocks of the file
    ensures ok && TripleFull(old(ip.addrs), old(fs.blocks)) ==>
      && (forall c :: 0 <= c < fs.sb.size ==>
            (Used(fs.sb, fs.blocks, c) <==> old(Used(fs.sb, fs.blocks, c)) && !Owned(old(ip.addrs), old(fs.blocks), c)))
      && forall c :: fs.sb.lo <= c < fs.sb.size ==> fs.blocks[c] == old(fs.blocks)[c]
    ensures TripleFull(old(ip.addrs), old(fs.blocks)) && fs.outstanding >= 1 && |old(fs.logged) + old(Maps(fs.sb, ip.addrs, fs.blocks))| < 27 ==> ok
    ensures TripleFull(old(ip.addrs), old(fs.blocks)) && ok ==> fs.outstanding >= 1 && |old(fs.logged) + old(Maps(fs.sb, ip.addrs, fs.blocks))| < 29
    // of a file as writei leaves it, with no slot beyond its size, that is a condition on the size
    ensures old(fs.Sound(ip) && Snug(ip.addrs, fs.blocks, ip.size)) ==>
      var nb := (old(ip.size) + 511) / 512;
      (TripleFull(old(ip.addrs), old(fs.blocks)) <==> nb <= 16522 || (nb - 16522) % 128 == 0)
    ensures ok ==> ip.size == 0 && |ip.addrs| == NADDRS && forall i :: 0 <= i < NADDRS ==> ip.addrs[i] == 0
    ensures ok && TripleFull(old(ip.addrs), old(fs.blocks)) ==> fs.Sound(ip) && Snug(ip.addrs, fs.blocks, 0)
    // the on-disk inode is emptied too; no other block outside the bitmap changes, and the next commit saves it all
    ensures ok ==> fs.Filed(ip) && SameOthers(old(fs.blocks), fs.blocks, ip.iblock, ip.index)
    ensures ok ==> forall c :: 0 <= c < fs.sb.size && fs.blocks[c] != old(fs.blocks)[c] ==> c in Bitmap(fs.sb) + {ip.iblock}
    ensures ok ==> old(fs.logged) <= fs.logged <= old(fs.logged) + Bitmap(fs.sb) + {ip.iblock}
    ensures ok && old(fs.Durable()) ==> fs.Durable()
    ensures ok ==> |fs.logged - old(fs.logged)| <= fs.sb.size / 4096 + 2
  {
    hide Freed, Addr, Used, Owned, Bitmap, Placed, Unshared, TripleFull, GaveBack, NoHoles, Stored, Maps, Halted, Snug, GetWord;
    ghost var a0, b0, l0 := ip.addrs, fs.blocks, fs.logged;
    RowsIff(a0, b0, ip.size);
    ok := FreeAll(fs, ip);
    MetaBelow(fs.sb);
    if ok {
      ghost var b1 := fs.blocks;
      ip.size := 0;
      ok := fs.Iupdate(ip);
      Emptied(fs.sb, a0, b0, b1, fs.blocks, ip.iblock);
      EmptyFile(fs.sb, a0, b0, fs.blocks, ip.addrs);
      if ok { LoggedSize(fs.sb, l0, fs.logged, ip.iblock); }
      GaveBackMeans(fs.sb, a0, b0, fs.blocks);
    } else if TripleFull(a0, b0) {
      HaltedMeans(fs, a0, b0, l0);
    }
  }

  /** One block for each block of the bitmap, and the inode block. */
  lemma LoggedSize(sb: Super, l0: set<nat>, l1: set<nat>, i: nat)
    requires sb.Ok() && l1 <= l0 + Bitmap(sb) + {i}
    ensures |l1 - l0| <= sb.size / BPB + 2
  {
    var s := l1 - l0 - {i};
    forall c | c in s ensures sb.bmapstart <= c < sb.bmapstart + sb.size / BPB + 1 {
      var b :| 0 <= b < sb.size && sb.BBlock(b) == c;
      assert b / BPB <= sb.size / BPB;
    }
    SpanSize(s, sb.bmapstart, sb.size / BPB + 1);
    if i in l1 - l0 {
      assert l1 - l0 == s + {i};
    } else {
      assert l1 - l0 == s;
    }
  }

  /** Writing the inode block i frees nothing and takes nothing. */
  lemma Emptied(sb: Super, a0: seq<Word>, b0: seq<Block>, b1: seq<Block>, b2: seq<Block>, i: nat)
    requires Sized(sb, a0, b0) && i < sb.bmapstart && |b1| == |b2| == sb.size && b2 == b1[i := b2[i]]
    ensures GaveBack(sb, a0, b0, b2) <==> GaveBack(sb, a0, b0, b1)
  {
    hide Owned, Used;
    MetaBits(sb, b1, b2, i);
    MetaBelow(sb);
  }

  lemma MetaBelow(sb: Super)
    requires sb.Ok()
    ensures sb.bmapstart < sb.lo && forall c :: c in Bitmap(sb) ==> sb.bmapstart <= c < sb.lo
  {
  }

  lemma FreedNone(sb: Super, a: seq<Word>, b: seq<Block>)
    requires TreeOk(sb, a, b)
    ensures Freed(sb, a, b, b, {}, false)
  {
    hide Addr, Used;
  }

  lemma NoTriple(a0: seq<Word>, b0: seq<Block>)
    requires |a0| == NADDRS && forall q :: IsPath(q) && q[0] == NDIRECT + 2 ==> Addr(a0, b0, q) == 0
    ensures TripleFull(a0, b0)
  {
    hide Addr;
  }
}
