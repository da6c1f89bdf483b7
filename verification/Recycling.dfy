/** What the buffer cache makes of the blocks of fs.c: bget may give the buffer of a block that was not logged to
    another block, and a reader then sees again what the last commit left on the disk. */
module Recycling {
  import opened Blocks
  import opened BlockTree
  import opened Durability
  import opened FileData

  import Bio

  /** The cache shows blocks, the disk has committed, and the dirty buffers are the logged blocks. */
  ghost predicate Backs(s: Bio.Slots, cached: map<nat, Bio.Buf>, disk: Bio.DiskMap,
                        blocks: seq<Block>, committed: seq<Block>, logged: set<nat>) {
    && Bio.Indexed(s, cached) && cached.Keys <= disk.Keys && |committed| == |blocks|
    && (forall n :: n in disk <==> 0 <= n < |blocks|)
    && (forall n :: n in disk ==> Bio.View(s, cached, disk)[n] == blocks[n] && disk[n] == committed[n])
    && (forall n :: n in disk ==> (n in Bio.Pinned(s, cached) <==> n in logged))
  }

  /** The file system keeps every change in the log exactly when the cache keeps it in a dirty buffer. */
  lemma SavedIsCoherent(s: Bio.Slots, cached: map<nat, Bio.Buf>, disk: Bio.DiskMap,
                        blocks: seq<Block>, committed: seq<Block>, logged: set<nat>)
    requires Backs(s, cached, disk, blocks, committed, logged)
    ensures Saved(blocks, committed, logged) <==> Bio.Coherence(s, cached, disk)
  {
    hide Bio.Indexed, Bio.View, Bio.Pinned;
    forall c | 0 <= c < |blocks| ensures blocks[c] != committed[c] <==> Bio.View(s, cached, disk)[c] != disk[c] {
      assert c in disk;
    }
  }

  /** The blocks as they are seen once the buffer of block c has been recycled. */
  function Dropped(blocks: seq<Block>, committed: seq<Block>, c: nat): (r: seq<Block>)
    requires |committed| == |blocks|
    ensures |r| == |blocks|
  {
    if c < |blocks| then blocks[c := committed[c]] else blocks
  }

  /** bget's recycling of buffer b, as fs.c sees it: at most one block, which is not logged, falls back to what
      was committed, and none does when every change is logged. */
  lemma Recycled(s: Bio.Slots, cached: map<nat, Bio.Buf>, disk: Bio.DiskMap,
                 blocks: seq<Block>, committed: seq<Block>, logged: set<nat>, b: Bio.Buf, n: nat)
    requires Backs(s, cached, disk, blocks, committed, logged)
    requires b in s && s[b].Available() && n !in cached && n in disk
    ensures var s' := s[b := Bio.Slot(Bio.ROOTDEV, n, false, false, 1, s[b].data)];
            var cached' := Bio.Reassigned(s, cached, b, n);
            var blocks' := if s[b].dev == 0 then blocks else Dropped(blocks, committed, s[b].blockno);
            && Backs(s', cached', disk, blocks', committed, logged)
            && (s[b].dev != 0 ==> s[b].blockno < |blocks| && s[b].blockno !in logged)
            && (Saved(blocks, committed, logged) ==> blocks' == blocks)
  {
    hide Bio.Indexed, Bio.View, Bio.Pinned, Bio.Held, Bio.Reassigned;
    if s[b].dev != 0 { WhichBlock(s, cached, b); }
    Bio.RecycleKeeps(s, cached, disk, b, n);
  }

  lemma WhichBlock(s: Bio.Slots, cached: map<nat, Bio.Buf>, b: Bio.Buf)
    requires Bio.Indexed(s, cached) && b in s && s[b].dev != 0
    ensures s[b].blockno in cached
  {
  }

  /** After bmap has filled the empty slot p[..k + 1] of an index block c, dropping the change of c empties that slot
      and those below it and leaves all others as they are. */
  lemma {:induction false} DroppedSlot(sb: Super, a0: seq<Word>, b0: seq<Block>, a1: seq<Word>, b1: seq<Block>,
                                       p: Path, k: nat, q: Path)
    requires Grew(sb, a0, b0, a1, b1, p) && IsPath(p) && 1 <= k < |p| && Gap(a0, b0, p, k) && IsPath(q)
    ensures var c := Addr(a0, b0, p[..k]);
            c < sb.size && Addr(a1, b1[c := b0[c]], q) == if p[..k + 1] <= q then 0 else Addr(a1, b1, q)
    decreases |q|
  {
    hide Used, GetWord, GrewBits, GrewKept;
    var c, top := Addr(a0, b0, p[..k]), p[..k + 1];
    assert Addr(a1, b1, p[..k]) == c;
    if |q| > 1 {
      var r := Parent(q);
      DroppedSlot(sb, a0, b0, a1, b1, p, k, r);
      if top <= q && !(top <= r) {
        assert q == top && r == p[..k];
      }
      if Addr(a1, b1, r) == c && !(top <= r) {
        assert r == p[..k];
        assert q <= p ==> q == top;
        assert Addr(a0, b0, q) == GetWord(b0[c], q[|q| - 1]);
      }
    }
  }

  /** So a file loses what bmap had just mapped when the index block that bmap forgot leaves the cache: the slot is
      empty again, the file has a hole there, and the block taken for it is in use but in no slot of the file. */
  lemma Forgotten(sb: Super, a0: seq<Word>, b0: seq<Block>, l0: set<nat>, a1: seq<Word>, b1: seq<Block>, l1: set<nat>,
                  committed: seq<Block>, p: Path, k: nat)
    requires Grew(sb, a0, b0, a1, b1, p) && IsLeaf(p) && Addr(a1, b1, p) != 0
    requires Traced(sb, a0, b0, l0, b1, l1, Unlogged(a0, b0, p)) && Saved(b0, committed, l0)
    requires p[0] > NDIRECT && 1 <= k < |p| && Gap(a0, b0, p, k) && Addr(a0, b0, p[..k]) !in l0
    ensures var c := Addr(a0, b0, p[..k]);
            var b' := Dropped(b1, committed, c);
            && c < sb.size && c !in l1 && b' != b1
            && Addr(a1, b', p) == 0 && Addr(a1, b', p[..k + 1]) == 0
            && (forall size :: 0 <= BlockOf(p) * BSIZE < size ==> !NoHoles(a1, b', size))
            && Used(sb, b1, Addr(a1, b1, p)) && Used(sb, b', Addr(a1, b1, p)) && !Owned(a1, b', Addr(a1, b1, p))
  {
    hide Addr, Used, GrewBits, GrewKept, NotDeep, LeafPath;
    var c, x := Addr(a0, b0, p[..k]), Addr(a1, b1, p);
    var b' := b1[c := b0[c]];
    NotForgotten(sb, a0, b0, l0, l1, p[..k]);
    assert b' == Dropped(b1, committed, c);
    DroppedSlot(sb, a0, b0, a1, b1, p, k, p);
    DroppedSlot(sb, a0, b0, a1, b1, p, k, p[..k + 1]);
    LeafBack(p);
    forall q | IsPath(q) ensures Addr(a1, b', q) != x {
      DroppedSlot(sb, a0, b0, a1, b1, p, k, q);
    }
    BitsKept(sb, b1, b');
  }

  lemma NotForgotten(sb: Super, a0: seq<Word>, b0: seq<Block>, l0: set<nat>, l1: set<nat>, q: Path)
    requires Sized(sb, a0, b0) && NotDeep(a0, b0, l1 - l0) && Deep(q) && Addr(a0, b0, q) != 0 && Addr(a0, b0, q) !in l0
    ensures Addr(a0, b0, q) !in l1
  {
  }
}
