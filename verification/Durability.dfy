/** What a commit saves: the blocks that changed since the last one, as far as they were given to log_write. */
module Durability {
  import opened Blocks
  import opened BlockTree

  /** Every block that differs from what the last commit made durable will be in the next one. */
  ghost predicate Saved(blocks: seq<Block>, committed: seq<Block>, logged: set<nat>) {
    |committed| == |blocks| && forall c :: 0 <= c < |blocks| && blocks[c] != committed[c] ==> c in logged
  }

  /** What a commit makes durable: the logged blocks as they are, the others as they were. */
  ghost function Merged(committed: seq<Block>, blocks: seq<Block>, logged: set<nat>): (r: seq<Block>)
    requires |committed| == |blocks|
    ensures |r| == |blocks|
  {
    seq(|blocks|, c requires 0 <= c < |blocks| => if c in logged then blocks[c] else committed[c])
  }

  lemma MergedAll(committed: seq<Block>, blocks: seq<Block>, logged: set<nat>)
    requires Saved(blocks, committed, logged)
    ensures Merged(committed, blocks, logged) == blocks && Saved(blocks, blocks, {})
  {
  }

  /** From (b1, l1) to (b2, l2) every block that changed was logged. */
  ghost predicate Logs(b1: seq<Block>, l1: set<nat>, b2: seq<Block>, l2: set<nat>) {
    |b1| == |b2| && l1 <= l2 && forall c :: 0 <= c < |b1| && b2[c] != b1[c] ==> c in l2
  }

  lemma LogsNone(b: seq<Block>, l: set<nat>)
    ensures Logs(b, l, b, l)
  {
  }

  lemma LogsTwice(b1: seq<Block>, l1: set<nat>, b2: seq<Block>, l2: set<nat>, b3: seq<Block>, l3: set<nat>)
    requires Logs(b1, l1, b2, l2) && Logs(b2, l2, b3, l3)
    ensures Logs(b1, l1, b3, l3)
  {
  }

  lemma LogsOne(b: seq<Block>, l: set<nat>, i: nat, x: Block)
    requires i < |b|
    ensures Logs(b, l, b[i := x], l + {i})
  {
  }

  lemma LogsTaken(sb: Super, b: seq<Block>, l: set<nat>, f: nat)
    requires sb.Ok() && |b| == sb.size && sb.lo <= f < sb.size
    ensures Logs(b, l, Taken(sb, b, f), l + {sb.BBlock(f), f})
  {
    hide Taken;
    TakenElsewhere(sb, b, f);
  }

  /** A slot that leads to an index block which bmap does not log when it fills a slot of it. */
  predicate Deep(q: Path) {
    IsPath(q) && q[0] > NDIRECT && !IsLeaf(q)
  }

  /** No such block of tree 0 is in s. */
  ghost predicate NotDeep(a0: seq<Word>, b0: seq<Block>, s: set<nat>)
    requires |a0| == NADDRS
  {
    forall q :: Deep(q) && Addr(a0, b0, q) != 0 ==> Addr(a0, b0, q) !in s
  }

  /** From (b0, l0) to (b1, l1) every block that changed, but for those in u, and every block newly in use
      was logged, and none of the deep index blocks of tree 0. */
  ghost predicate Traced(sb: Super, a0: seq<Word>, b0: seq<Block>, l0: set<nat>, b1: seq<Block>, l1: set<nat>, u: set<nat>) {
    && Sized(sb, a0, b0) && |b1| == sb.size && l0 <= l1
    && (forall c :: 0 <= c < sb.size && b1[c] != b0[c] ==> c in l1 || c in u)
    && (forall c :: 0 <= c < sb.size && Used(sb, b1, c) && !Used(sb, b0, c) ==> c in l1)
    && NotDeep(a0, b0, l1 - l0)
  }

  lemma TracedNone(sb: Super, a0: seq<Word>, b0: seq<Block>, l0: set<nat>, u: set<nat>)
    requires Sized(sb, a0, b0)
    ensures Traced(sb, a0, b0, l0, b0, l0, u)
  {
    assert l0 - l0 == {};
  }

  /** One more step: the blocks in touched may change, those in extra are logged. */
  lemma TracedStep(sb: Super, a0: seq<Word>, b0: seq<Block>, l0: set<nat>, b1: seq<Block>, l1: set<nat>,
                   b2: seq<Block>, extra: set<nat>, touched: set<nat>, u: set<nat>)
    requires Traced(sb, a0, b0, l0, b1, l1, u) && |b2| == sb.size && NotDeep(a0, b0, extra)
    requires forall c :: 0 <= c < sb.size && c !in touched ==> b2[c] == b1[c]
    requires forall c :: 0 <= c < sb.size && Used(sb, b2, c) && !Used(sb, b1, c) ==> c in extra
    requires forall c :: c in touched ==> c in l1 || c in extra || c in u
    ensures Traced(sb, a0, b0, l0, b2, l1 + extra, u)
  {
    hide Addr, Used;
  }

  /** Blocks that balloc takes, bitmap blocks and the block of a leaf are no deep index blocks. */
  lemma TakenNotDeep(sb: Super, a0: seq<Word>, b0: seq<Block>, q: Path, c: nat, taken: bool)
    requires TreeOk(sb, a0, b0) && IsPath(q) && Found(sb, a0, b0, q, c, taken)
    ensures NotDeep(a0, b0, TakenSet(sb, taken, c))
    ensures !Deep(q) ==> NotDeep(a0, b0, {c})
  {
    hide Addr, Used;
    forall r | Deep(r) && Addr(a0, b0, r) != 0
      ensures Addr(a0, b0, r) !in TakenSet(sb, taken, c) && (!Deep(q) ==> Addr(a0, b0, r) != c)
    {
      assert sb.lo <= Addr(a0, b0, r) && Used(sb, b0, Addr(a0, b0, r));
      if taken { assert sb.BBlock(c) < sb.lo; }
    }
  }

  /** Finding or filling slot q: holder is the index block that the slot lies in, if it lies in one. */
  lemma SlotTraced(sb: Super, a0: seq<Word>, b0: seq<Block>, l0: set<nat>, b1: seq<Block>, l1: set<nat>, b2: seq<Block>,
                   q: Path, c: nat, taken: bool, holder: set<nat>, u: set<nat>)
    requires TreeOk(sb, a0, b0) && Traced(sb, a0, b0, l0, b1, l1, u) && |b2| == sb.size
    requires IsPath(q) && Found(sb, a0, b0, q, c, taken)
    requires forall x :: 0 <= x < sb.size && x !in TakenSet(sb, taken, c) + (if taken then holder else {}) ==> b2[x] == b1[x]
    requires forall x :: 0 <= x < sb.size && Used(sb, b2, x) && !Used(sb, b1, x) ==> x in TakenSet(sb, taken, c)
    requires taken ==> holder <= l1 + u
    ensures Traced(sb, a0, b0, l0, b2, l1 + TakenSet(sb, taken, c), u)
  {
    hide Addr, Used, Traced, NotDeep, Found;
    TakenNotDeep(sb, a0, b0, q, c, taken);
    TracedStep(sb, a0, b0, l0, b1, l1, b2, TakenSet(sb, taken, c), TakenSet(sb, taken, c) + (if taken then holder else {}), u);
  }

  /** The same for slot p[..k + 1], in the index block h that slot p[..k] leads to. */
  lemma LevelTraced(sb: Super, a0: seq<Word>, b0: seq<Block>, l0: set<nat>, b1: seq<Block>, l1: set<nat>, b2: seq<Block>,
                    p: Path, k: nat, h: nat, th: bool, c: nat, tc: bool)
    requires TreeOk(sb, a0, b0) && IsPath(p) && p[0] > NDIRECT && 1 <= k < |p| && IsPath(p[..k]) && IsPath(p[..k + 1])
    requires Traced(sb, a0, b0, l0, b1, l1, Unlogged(a0, b0, p)) && |b2| == sb.size
    requires Found(sb, a0, b0, p[..k], h, th) && TakenSet(sb, th, h) <= l1 && Found(sb, a0, b0, p[..k + 1], c, tc)
    requires forall x :: 0 <= x < sb.size && x !in TakenSet(sb, tc, c) + (if tc then {h} else {}) ==> b2[x] == b1[x]
    requires forall x :: 0 <= x < sb.size && Used(sb, b2, x) && !Used(sb, b1, x) ==> x in TakenSet(sb, tc, c)
    ensures Traced(sb, a0, b0, l0, b2, l1 + TakenSet(sb, tc, c), Unlogged(a0, b0, p))
    ensures tc <==> Addr(a0, b0, p[..k + 1]) == 0
  {
    hide Addr, Used, Traced, Placed, Unshared, Unlogged, TakenSet, Found;
    FoundMeans(sb, a0, b0, p[..k + 1], c, tc);
    HolderLogged(sb, a0, b0, p, k, h, th, c, tc, l1);
    SlotTraced(sb, a0, b0, l0, b1, l1, b2, p[..k + 1], c, tc, {h}, Unlogged(a0, b0, p));
  }

  /** Logging block c, not deep, adds nothing else. */
  lemma LogTraced(sb: Super, a0: seq<Word>, b0: seq<Block>, l0: set<nat>, b1: seq<Block>, l1: set<nat>, u: set<nat>, c: nat)
    requires Traced(sb, a0, b0, l0, b1, l1, u) && NotDeep(a0, b0, {c})
    ensures Traced(sb, a0, b0, l0, b1, l1 + {c}, u)
  {
    hide Addr, Used, NotDeep;
    TracedStep(sb, a0, b0, l0, b1, l1, b1, {c}, {}, u);
  }

  /** The index block in which slot p[..k + 1] is filled was taken, and logged, on the way, or is one that bmap forgets. */
  lemma HolderLogged(sb: Super, a0: seq<Word>, b0: seq<Block>, p: Path, k: nat, h: nat, th: bool, c: nat, tc: bool, l: set<nat>)
    requires Sized(sb, a0, b0) && IsPath(p) && p[0] > NDIRECT && 1 <= k < |p|
    requires Found(sb, a0, b0, p[..k], h, th) && Found(sb, a0, b0, p[..k + 1], c, tc)
    requires TakenSet(sb, th, h) <= l
    ensures tc ==> h in l || h in Unlogged(a0, b0, p)
  {
    hide Used;
    if tc && !th { assert Gap(a0, b0, p, k); }
  }

  /** An index block that bmap forgets differs afterwards from what it was. */
  lemma GapChanged(sb: Super, a0: seq<Word>, b0: seq<Block>, a1: seq<Word>, b1: seq<Block>, p: Path, k: nat)
    requires TreeOk(sb, a0, b0) && TreeOk(sb, a1, b1) && IsPath(p) && 1 <= k < |p| && Gap(a0, b0, p, k)
    requires forall q :: IsPath(q) && Addr(a0, b0, q) != 0 ==> Addr(a1, b1, q) == Addr(a0, b0, q)
    requires Addr(a1, b1, p) != 0
    ensures Addr(a0, b0, p[..k]) < sb.size && b1[Addr(a0, b0, p[..k])] != b0[Addr(a0, b0, p[..k])]
  {
    hide Addr, Used, Placed, Unshared, GetWord;
    var q := p[..k + 1];
    Ancestors(a1, b1, p, k + 1);
    assert IsPath(p[..k]) && Parent(q) == p[..k];
    SlotWord(sb, a0, b0, q);
    SlotWord(sb, a1, b1, q);
  }

  /** Exactly when everything is saved: the blocks u, each the deep index block of a gap that p closes for some
      p in ps, had all been logged. */
  lemma SavedIff(sb: Super, a0: seq<Word>, b0: seq<Block>, l0: set<nat>, a1: seq<Word>, b1: seq<Block>, l1: set<nat>,
                 committed: seq<Block>, ps: set<Path>, u: set<nat>)
    requires TreeOk(sb, a0, b0) && TreeOk(sb, a1, b1) && Traced(sb, a0, b0, l0, b1, l1, u)
    requires forall q :: IsPath(q) && Addr(a0, b0, q) != 0 ==> Addr(a1, b1, q) == Addr(a0, b0, q)
    requires forall p :: p in ps ==> IsPath(p) && Addr(a1, b1, p) != 0
    requires forall c :: c in u <==> exists p :: p in ps && c in Unlogged(a0, b0, p)
    requires Saved(b0, committed, l0)
    ensures Saved(b1, committed, l1) <==> u <= l0
  {
    hide Addr, Used, Placed, Unshared, Unlogged, NotDeep;
    if !(u <= l0) {
      var c :| c in u && c !in l0;
      var p :| p in ps && c in Unlogged(a0, b0, p);
      Forgets(sb, a0, b0, l0, a1, b1, l1, p, c);
    }
  }

  /** An index block that bmap forgets has changed, and if it was not logged before it is not logged now. */
  lemma Forgets(sb: Super, a0: seq<Word>, b0: seq<Block>, l0: set<nat>, a1: seq<Word>, b1: seq<Block>, l1: set<nat>, p: Path, c: nat)
    requires TreeOk(sb, a0, b0) && TreeOk(sb, a1, b1) && NotDeep(a0, b0, l1 - l0)
    requires forall q :: IsPath(q) && Addr(a0, b0, q) != 0 ==> Addr(a1, b1, q) == Addr(a0, b0, q)
    requires IsPath(p) && Addr(a1, b1, p) != 0 && c in Unlogged(a0, b0, p) && c !in l0
    ensures c < sb.size && b1[c] != b0[c] && c !in l1
  {
    hide Addr, Used, Placed, Unshared;
    var k :| 1 <= k < |p| && Gap(a0, b0, p, k) && Addr(a0, b0, p[..k]) == c;
    GapChanged(sb, a0, b0, a1, b1, p, k);
    assert Deep(p[..k]);
  }

  /** The same for one slot p that bmap maps. */
  lemma MappedIff(sb: Super, a0: seq<Word>, b0: seq<Block>, l0: set<nat>, a1: seq<Word>, b1: seq<Block>, l1: set<nat>,
                  committed: seq<Block>, p: Path)
    requires Grew(sb, a0, b0, a1, b1, p) && IsPath(p) && Addr(a1, b1, p) != 0
    requires Traced(sb, a0, b0, l0, b1, l1, Unlogged(a0, b0, p))
    ensures Saved(b0, committed, l0) ==> (Saved(b1, committed, l1) <==> Unlogged(a0, b0, p) <= l0)
  {
    hide Addr, Used, Placed, Unshared, Traced, Saved, Unlogged;
    if Saved(b0, committed, l0) {
      GrewKeepsSlots(sb, a0, b0, a1, b1, p);
      SavedIff(sb, a0, b0, l0, a1, b1, l1, committed, {p}, Unlogged(a0, b0, p));
    }
  }

  lemma GrewKeepsSlots(sb: Super, a0: seq<Word>, b0: seq<Block>, a1: seq<Word>, b1: seq<Block>, p: Path)
    requires Grew(sb, a0, b0, a1, b1, p)
    ensures forall q :: IsPath(q) && Addr(a0, b0, q) != 0 ==> Addr(a1, b1, q) == Addr(a0, b0, q)
  {
    hide Addr, Used;
  }

  lemma MissingTwo(a: seq<Word>, b: seq<Block>, p: Path)
    requires |a| == NADDRS && IsPath(p) && |p| == 2
    ensures Missing(a, b, p) == (if Addr(a, b, p[..1]) == 0 then 1 else 0) + (if Addr(a, b, p) == 0 then 1 else 0)
    ensures Addr(a, b, p) != 0 ==> Missing(a, b, p) == 0
  {
    hide Addr;
    if Addr(a, b, p) != 0 { Ancestors(a, b, p, 1); }
  }

  lemma MissingThree(a: seq<Word>, b: seq<Block>, p: Path)
    requires |a| == NADDRS && IsPath(p) && |p| == 3
    ensures Missing(a, b, p) == Missing(a, b, p[..2]) + (if Addr(a, b, p) == 0 then 1 else 0)
    ensures Addr(a, b, p) != 0 ==> Missing(a, b, p) == 0
  {
    hide Addr;
    if Addr(a, b, p) != 0 { Ancestors(a, b, p, 2); }
  }

  lemma MissingFour(a: seq<Word>, b: seq<Block>, p: Path)
    requires |a| == NADDRS && IsPath(p) && |p| == 4
    ensures Missing(a, b, p) == Missing(a, b, p[..3]) + (if Addr(a, b, p) == 0 then 1 else 0)
    ensures Addr(a, b, p) != 0 ==> Missing(a, b, p) == 0
  {
    hide Addr;
    if Addr(a, b, p) != 0 { Ancestors(a, b, p, 3); }
  }

  /* ---------- Many slots in a row ---------- */

  /** Tree 1 is tree 0 with more slots filled, with blocks that were free. */
  ghost predicate Outgrew(sb: Super, a0: seq<Word>, b0: seq<Block>, a1: seq<Word>, b1: seq<Block>) {
    && TreeOk(sb, a0, b0) && TreeOk(sb, a1, b1)
    && (forall q :: IsPath(q) && Addr(a0, b0, q) != 0 ==> Addr(a1, b1, q) == Addr(a0, b0, q))
    && (forall q :: IsPath(q) && Addr(a1, b1, q) != Addr(a0, b0, q) ==> !Used(sb, b0, Addr(a1, b1, q)))
    && (forall c :: 0 <= c < sb.size && Used(sb, b0, c) ==> Used(sb, b1, c))
  }

  lemma OutgrewNone(sb: Super, a: seq<Word>, b: seq<Block>)
    requires TreeOk(sb, a, b)
    ensures Outgrew(sb, a, b, a, b)
  {
  }

  lemma OutgrewMap(sb: Super, a0: seq<Word>, b0: seq<Block>, a1: seq<Word>, b1: seq<Block>, a2: seq<Word>, b2: seq<Block>, p: Path)
    requires Outgrew(sb, a0, b0, a1, b1) && Grew(sb, a1, b1, a2, b2, p)
    ensures Outgrew(sb, a0, b0, a2, b2)
  {
    hide Addr, Used, Unshared;
  }

  /** Contents of data blocks do not matter. */
  lemma OutgrewStore(sb: Super, a0: seq<Word>, b0: seq<Block>, a1: seq<Word>, b1: seq<Block>, b2: seq<Block>)
    requires Outgrew(sb, a0, b0, a1, b1) && TreeOk(sb, a1, b2)
    requires forall q :: IsPath(q) ==> Addr(a1, b2, q) == Addr(a1, b1, q)
    requires forall c :: 0 <= c < sb.size ==> Used(sb, b2, c) == Used(sb, b1, c)
    ensures Outgrew(sb, a0, b0, a1, b2)
  {
    hide Addr, Used, Unshared, Placed;
  }

  /** The index blocks that mapping the file blocks from lo to hi - 1 changes and does not log. */
  ghost function UnloggedIn(a0: seq<Word>, b0: seq<Block>, lo: nat, hi: nat): set<nat>
    requires |a0| == NADDRS && hi <= MAXFILE
  {
    set bn, c | lo <= bn < hi && c in Unlogged(a0, b0, LeafPath(bn)) :: c
  }

  lemma UnloggedMore(a0: seq<Word>, b0: seq<Block>, lo: nat, hi: nat)
    requires |a0| == NADDRS && lo <= hi < MAXFILE
    ensures UnloggedIn(a0, b0, lo, lo) == {}
    ensures UnloggedIn(a0, b0, lo, hi + 1) == UnloggedIn(a0, b0, lo, hi) + Unlogged(a0, b0, LeafPath(hi))
  {
    hide Unlogged, LeafPath;
  }

  /** What bmap forgets in the grown tree it would have forgotten in tree 0, or took, and logged, on the way. */
  lemma GapBefore(sb: Super, a0: seq<Word>, b0: seq<Block>, a1: seq<Word>, b1: seq<Block>, p: Path, c: nat)
    requires Outgrew(sb, a0, b0, a1, b1) && IsPath(p) && c in Unlogged(a1, b1, p)
    ensures c in Unlogged(a0, b0, p) || (c < sb.size && Used(sb, b1, c) && !Used(sb, b0, c))
  {
    hide Addr, Used, Unshared;
    var k :| 1 <= k < |p| && Gap(a1, b1, p, k) && Addr(a1, b1, p[..k]) == c;
    if Addr(a0, b0, p[..k]) != 0 {
      assert Gap(a0, b0, p, k);
    }
  }

  lemma TracedMap(sb: Super, a0: seq<Word>, b0: seq<Block>, l0: set<nat>, a1: seq<Word>, b1: seq<Block>, l1: set<nat>,
                  b2: seq<Block>, l2: set<nat>, p: Path, u: set<nat>)
    requires Outgrew(sb, a0, b0, a1, b1) && IsPath(p)
    requires Traced(sb, a0, b0, l0, b1, l1, u) && Traced(sb, a1, b1, l1, b2, l2, Unlogged(a1, b1, p))
    ensures Traced(sb, a0, b0, l0, b2, l2, u + Unlogged(a0, b0, p))
  {
    hide Addr, Used, Unshared, Unlogged, Placed;
    forall c | c in Unlogged(a1, b1, p) ensures c in Unlogged(a0, b0, p) || c in l1 {
      GapBefore(sb, a0, b0, a1, b1, p, c);
    }
    forall q | Deep(q) && Addr(a0, b0, q) != 0 ensures Addr(a0, b0, q) !in l2 - l0 {
      assert Addr(a1, b1, q) == Addr(a0, b0, q);
      assert Addr(a0, b0, q) !in l1 - l0 && Addr(a1, b1, q) !in l2 - l1;
    }
  }

  /** A data block is no deep index block of tree 0. */
  lemma LeafNotDeep(sb: Super, a0: seq<Word>, b0: seq<Block>, a1: seq<Word>, b1: seq<Block>, p: Path)
    requires Outgrew(sb, a0, b0, a1, b1) && IsLeaf(p) && Addr(a1, b1, p) != 0
    ensures NotDeep(a0, b0, {Addr(a1, b1, p)})
  {
    hide Addr, Used, Placed;
  }

  lemma MetaNotDeep(sb: Super, a0: seq<Word>, b0: seq<Block>, i: nat)
    requires TreeOk(sb, a0, b0) && i < sb.lo
    ensures NotDeep(a0, b0, {i})
  {
    hide Addr, Used, Unshared;
  }

  /** The exact condition for a whole write. */
  lemma WrittenIff(sb: Super, a0: seq<Word>, b0: seq<Block>, l0: set<nat>, a1: seq<Word>, b1: seq<Block>, l1: set<nat>,
                   committed: seq<Block>, lo: nat, hi: nat)
    requires hi <= MAXFILE && Outgrew(sb, a0, b0, a1, b1) && Traced(sb, a0, b0, l0, b1, l1, UnloggedIn(a0, b0, lo, hi))
    requires forall bn :: lo <= bn < hi ==> Addr(a1, b1, LeafPath(bn)) != 0
    ensures Saved(b0, committed, l0) ==> (Saved(b1, committed, l1) <==> UnloggedIn(a0, b0, lo, hi) <= l0)
  {
    hide Addr, Used, Placed, Unshared, Traced, Saved, Unlogged, LeafPath;
    if Saved(b0, committed, l0) {
      var ps := set bn | lo <= bn < hi :: LeafPath(bn);
      SavedIff(sb, a0, b0, l0, a1, b1, l1, committed, ps, UnloggedIn(a0, b0, lo, hi));
    }
  }
}
