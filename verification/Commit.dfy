/** What the redo log does to the disk, as sequences of atomic block writes, and why a
    crash between any two of them is harmless. */
module Commit {
  import opened Blocks
  import opened Bio

  const MAXOPBLOCKS := 10
  const LOGSIZE := 3 * MAXOPBLOCKS

  /* ---------- The header block ---------- */

  function PutEntries(b: Block, lh: seq<Word>): Block
    requires |lh| <= LOGSIZE
  {
    if lh == [] then b else SetWord(PutEntries(b, lh[..|lh| - 1]), |lh|, lh[|lh| - 1])
  }

  /** write_head: the count and the block numbers go over the front of the header block;
      the words behind them keep what they held. */
  function PutHead(b: Block, lh: seq<Word>): Block
    requires |lh| <= LOGSIZE
  {
    PutEntries(SetWord(b, 0, |lh|), lh)
  }

  /** read_head */
  function GetHead(b: Block): (lh: seq<Word>)
    requires GetWord(b, 0) <= LOGSIZE
    ensures |lh| == GetWord(b, 0)
  {
    seq(GetWord(b, 0), i requires 0 <= i < GetWord(b, 0) => GetWord(b, i + 1))
  }

  lemma {:induction false} EntriesAt(b: Block, lh: seq<Word>)
    requires |lh| <= LOGSIZE
    ensures GetWord(PutEntries(b, lh), 0) == GetWord(b, 0)
    ensures forall i :: 0 <= i < |lh| ==> GetWord(PutEntries(b, lh), i + 1) == lh[i]
    ensures forall i :: |lh| < i < NWORDS ==> GetWord(PutEntries(b, lh), i) == GetWord(b, i)
  {
    hide GetWord, SetWord;
    if lh != [] {
      EntriesAt(b, lh[..|lh| - 1]);
    }
  }

  lemma HeadRoundTrip(b: Block, lh: seq<Word>)
    requires |lh| <= LOGSIZE
    ensures GetWord(PutHead(b, lh), 0) == |lh| && GetHead(PutHead(b, lh)) == lh
  {
    EntriesAt(SetWord(b, 0, |lh|), lh);
  }

  /** The header block holds the count, the block numbers and behind them the words that were there. */
  lemma HeadExactly(b: Block, lh: seq<Word>)
    requires |lh| <= 30
    ensures GetWord(PutHead(b, lh), 0) == |lh|
    ensures forall i :: 0 <= i < |lh| ==> GetWord(PutHead(b, lh), i + 1) == lh[i]
    ensures forall i :: |lh| < i < 128 ==> GetWord(PutHead(b, lh), i) == GetWord(b, i)
  {
    hide GetWord, SetWord;
    HeadFirst(b, |lh|);
    EntriesAt(SetWord(b, 0, |lh|), lh);
  }

  lemma HeadFirst(b: Block, n: Word)
    ensures GetWord(SetWord(b, 0, n), 0) == n && forall i :: 1 <= i < 128 ==> GetWord(SetWord(b, 0, n), i) == GetWord(b, i)
  {
  }

  /* ---------- Write sequences ---------- */

  /** The disk after the writes of w, in order. */
  ghost function Apply(d: DiskMap, w: seq<DiskWrite>): DiskMap {
    if w == [] then d else Apply(d, w[..|w| - 1])[w[|w| - 1].blockno := w[|w| - 1].data]
  }

  lemma {:induction false} ApplyAppend(d: DiskMap, v: seq<DiskWrite>, w: seq<DiskWrite>)
    ensures Apply(d, v + w) == Apply(Apply(d, v), w)
  {
    if w == [] {
      assert v + w == v;
    } else {
      assert (v + w)[..|v + w| - 1] == v + w[..|w| - 1];
      ApplyAppend(d, v, w[..|w| - 1]);
    }
  }

  /** Blocks that no write touches keep their contents. */
  lemma {:induction false} ApplyElsewhere(d: DiskMap, w: seq<DiskWrite>, n: nat)
    requires n in d && forall i :: 0 <= i < |w| ==> w[i].blockno != n
    ensures n in Apply(d, w) && Apply(d, w)[n] == d[n]
  {
    if w != [] {
      ApplyElsewhere(d, w[..|w| - 1], n);
    }
  }

  ghost predicate DistinctTargets(w: seq<DiskWrite>) {
    forall i, j :: 0 <= i < j < |w| ==> w[i].blockno != w[j].blockno
  }

  lemma {:induction false} ApplyAt(d: DiskMap, w: seq<DiskWrite>, k: nat)
    requires k < |w| && DistinctTargets(w)
    ensures w[k].blockno in Apply(d, w) && Apply(d, w)[w[k].blockno] == w[k].data
  {
    if k < |w| - 1 {
      ApplyAt(d, w[..|w| - 1], k);
    }
  }

  lemma {:induction false} ApplyKeys(d: DiskMap, w: seq<DiskWrite>)
    requires forall i :: 0 <= i < |w| ==> w[i].blockno in d
    ensures Apply(d, w).Keys == d.Keys
  {
    if w != [] {
      ApplyKeys(d, w[..|w| - 1]);
    }
  }

  /* ---------- The log on the disk ---------- */

  /** The header at start and the LOGSIZE - 1 blocks behind it (mkfs makes the log LOGSIZE blocks long). */
  predicate InLog(start: nat, n: nat) {
    start <= n < start + LOGSIZE
  }

  ghost predicate Loggable(start: nat, lh: seq<Word>, d: DiskMap) {
    && |lh| < LOGSIZE
    && (forall i :: 0 <= i < |lh| ==> lh[i] in d && !InLog(start, lh[i]))
    && (forall i, j :: 0 <= i < j < |lh| ==> lh[i] != lh[j])
    && (forall n :: InLog(start, n) ==> n in d)
  }

  /** A header that recovery can follow. */
  ghost predicate HeadOk(start: nat, d: DiskMap) {
    start in d && GetWord(d[start], 0) <= LOGSIZE && Loggable(start, GetHead(d[start]), d)
  }

  /** The first phase of commit (write_log). */
  ghost function LogWrites(start: nat, lh: seq<Word>, view: DiskMap): (w: seq<DiskWrite>)
    requires forall i :: 0 <= i < |lh| ==> lh[i] in view
    ensures |w| == |lh|
  {
    seq(|lh|, i requires 0 <= i < |lh| => DiskWrite(start + 1 + i, view[lh[i]]))
  }

  /** The third phase (install_trans), copying from the log blocks of d. */
  ghost function InstallWrites(start: nat, lh: seq<Word>, d: DiskMap): (w: seq<DiskWrite>)
    requires Loggable(start, lh, d)
    ensures |w| == |lh|
  {
    seq(|lh|, i requires 0 <= i < |lh| => DiskWrite(lh[i], d[start + 1 + i]))
  }

  /** write_head */
  ghost function HeadWrite(start: nat, b: Block, lh: seq<Word>): DiskWrite
    requires |lh| <= LOGSIZE
  {
    DiskWrite(start, PutHead(b, lh))
  }

  /** recover_from_log: install, then clear the header. */
  ghost function RecoverWrites(start: nat, d: DiskMap): seq<DiskWrite>
    requires HeadOk(start, d)
  {
    InstallWrites(start, GetHead(d[start]), d) + [HeadWrite(start, d[start], [])]
  }

  /** commit: log the blocks, write the header, install, clear the header. */
  ghost function CommitWrites(start: nat, lh: seq<Word>, view: DiskMap, head: Block): seq<DiskWrite>
    requires |lh| <= LOGSIZE && forall i :: 0 <= i < |lh| ==> lh[i] in view
  {
    LogWrites(start, lh, view) + [HeadWrite(start, head, lh)] +
    seq(|lh|, i requires 0 <= i < |lh| => DiskWrite(lh[i], view[lh[i]])) + [HeadWrite(start, PutHead(head, lh), [])]
  }

  /** Write by write: the new contents into the log, the header with the count and the block numbers, the new contents
      home, the header with count 0. */
  lemma CommitExactly(start: nat, lh: seq<Word>, view: DiskMap, head: Block)
    requires |lh| <= 30 && forall i :: 0 <= i < |lh| ==> lh[i] in view
    ensures var w := CommitWrites(start, lh, view, head);
            && |w| == 2 * |lh| + 2
            && (forall i {:trigger lh[i]} :: 0 <= i < |lh| ==> w[i] == DiskWrite(start + 1 + i, view[lh[i]]))
            && w[|lh|].blockno == start && GetWord(w[|lh|].data, 0) == |lh|
            && (forall i {:trigger lh[i]} :: 0 <= i < |lh| ==> GetWord(w[|lh|].data, i + 1) == lh[i])
            && (forall i {:trigger lh[i]} :: 0 <= i < |lh| ==> w[|lh| + 1 + i] == DiskWrite(lh[i], view[lh[i]]))
            && w[2 * |lh| + 1].blockno == start && GetWord(w[2 * |lh| + 1].data, 0) == 0
  {
    hide PutHead, GetWord;
    HeadExactly(head, lh);
    HeadExactly(PutHead(head, lh), []);
  }

  /** Recovery: what the header names goes home from the log, then the count is 0. */
  lemma RecoverExactly(start: nat, d: DiskMap)
    requires HeadOk(start, d)
    ensures var n, w := GetWord(d[start], 0), RecoverWrites(start, d);
            && n < 30 && |w| == n + 1
            && (forall i :: 0 <= i < n ==> start + 1 + i in d && w[i] == DiskWrite(GetWord(d[start], i + 1), d[start + 1 + i]))
            && w[n].blockno == start && GetWord(w[n].data, 0) == 0
  {
    hide PutHead, GetWord;
    HeadRoundTrip(d[start], []);
    var lh := GetHead(d[start]);
    assert forall i {:trigger lh[i]} :: 0 <= i < |lh| ==> InLog(start, start + 1 + i);
  }

  /* ---------- Crash safety ---------- */

  /** What recovery will make of the home blocks of d: a block named by the header comes
      from the log, any other is already right. */
  ghost predicate Promises(start: nat, d: DiskMap, target: DiskMap) {
    && HeadOk(start, d) && target.Keys == d.Keys
    && var lh := GetHead(d[start]);
       && (forall i :: 0 <= i < |lh| ==> d[start + 1 + i] == target[lh[i]])
       && (forall n :: n in d && !InLog(start, n) && n !in lh ==> d[n] == target[n])
  }

  ghost predicate SameHome(start: nat, d: DiskMap, e: DiskMap) {
    d.Keys == e.Keys && forall n :: n in d && !InLog(start, n) ==> d[n] == e[n]
  }

  ghost predicate Clean(start: nat, d: DiskMap) {
    HeadOk(start, d) && GetHead(d[start]) == []
  }

  lemma CleanPromises(start: nat, d: DiskMap, e: DiskMap)
    requires Clean(start, d) && SameHome(start, d, e)
    ensures Promises(start, d, e)
  {
  }

  /** After k of the install writes: the first k logged blocks are home, nothing else moved. */
  lemma InstallEffect(start: nat, lh: seq<Word>, d: DiskMap, k: nat)
    requires Loggable(start, lh, d) && k <= |lh|
    ensures var e := Apply(d, InstallWrites(start, lh, d)[..k]);
            && e.Keys == d.Keys
            && (forall i :: 0 <= i < k ==> e[lh[i]] == d[start + 1 + i])
            && (forall n :: n in d && n !in lh[..k] ==> e[n] == d[n])
  {
    var w := InstallWrites(start, lh, d)[..k];
    ApplyKeys(d, w);
    forall i | 0 <= i < k ensures Apply(d, w)[lh[i]] == d[start + 1 + i] {
      ApplyAt(d, w, i);
    }
    forall n | n in d && n !in lh[..k] ensures Apply(d, w)[n] == d[n] {
      assert forall i :: 0 <= i < k ==> w[i].blockno == lh[..k][i];
      ApplyElsewhere(d, w, n);
    }
  }

  /** Installing any prefix of the logged blocks does not change the promise. */
  lemma InstallPrefix(start: nat, d: DiskMap, target: DiskMap, k: nat)
    requires Promises(start, d, target) && k <= |GetHead(d[start])|
    ensures var e := Apply(d, InstallWrites(start, GetHead(d[start]), d)[..k]);
            Promises(start, e, target) && e[start] == d[start] && (k == |GetHead(d[start])| ==> SameHome(start, e, target))
  {
    hide Apply, InstallWrites, GetHead;
    var lh := GetHead(d[start]);
    InstallEffect(start, lh, d, k);
    assert forall n :: InLog(start, n) ==> n !in lh[..k];
    assert InLog(start, start);
    assert forall i {:trigger lh[i]} :: 0 <= i < |lh| ==> InLog(start, start + 1 + i);
    assert k == |lh| ==> lh[..k] == lh;
  }

  /** Erasing the header once every logged block is home. */
  lemma ClearHead(start: nat, d: DiskMap, target: DiskMap)
    requires HeadOk(start, d) && SameHome(start, d, target)
    ensures var e := d[start := PutHead(d[start], [])]; Clean(start, e) && SameHome(start, e, target)
  {
    HeadRoundTrip(d[start], []);
    assert InLog(start, start);
  }

  lemma ApplyOne(d: DiskMap, w: seq<DiskWrite>, x: DiskWrite)
    ensures Apply(d, w + [x]) == Apply(d, w)[x.blockno := x.data]
  {
    assert (w + [x])[..|w|] == w;
  }

  /** A recovery that is itself cut short at any write leaves the promise intact; one that
      completes redeems it and leaves an empty header. */
  lemma RecoverPrefix(start: nat, d: DiskMap, target: DiskMap, k: nat)
    requires Promises(start, d, target) && k <= |RecoverWrites(start, d)|
    ensures var e := Apply(d, RecoverWrites(start, d)[..k]);
            Promises(start, e, target) && (k == |RecoverWrites(start, d)| ==> Clean(start, e) && SameHome(start, e, target))
  {
    hide Apply, InstallWrites, GetHead, Promises, Clean, SameHome;
    PromisesOk(start, d, target);
    var lh, w := GetHead(d[start]), RecoverWrites(start, d);
    if k <= |lh| {
      assert w[..k] == InstallWrites(start, lh, d)[..k];
      InstallPrefix(start, d, target, k);
    } else {
      var v := InstallWrites(start, lh, d);
      assert w[..k] == v + [HeadWrite(start, d[start], [])];
      assert v[..|lh|] == v;
      InstallPrefix(start, d, target, |lh|);
      PromisesOk(start, Apply(d, v), target);
      ClearHead(start, Apply(d, v), target);
      ApplyOne(d, v, HeadWrite(start, d[start], []));
      CleanPromises(start, Apply(d, w), target);
      assert w[..k] == w;
    }
  }

  lemma PromisesOk(start: nat, d: DiskMap, target: DiskMap)
    requires Promises(start, d, target)
    ensures HeadOk(start, d)
  {
  }

  /** After k of the log writes: the copies are in the log area, nothing else moved. */
  lemma LogEffect(start: nat, lh: seq<Word>, d: DiskMap, view: DiskMap, k: nat)
    requires Loggable(start, lh, d) && view.Keys == d.Keys && k <= |lh|
    ensures var e := Apply(d, LogWrites(start, lh, view)[..k]);
            && e.Keys == d.Keys
            && (forall i :: 0 <= i < k ==> e[start + 1 + i] == view[lh[i]])
            && (forall n :: n in d && !(start < n <= start + k) ==> e[n] == d[n])
  {
    hide Apply;
    var w := LogWrites(start, lh, view)[..k];
    assert forall i :: 0 <= i < k ==> w[i] == DiskWrite(start + 1 + i, view[lh[i]]) && InLog(start, w[i].blockno);
    ApplyKeys(d, w);
    forall i | 0 <= i < k ensures Apply(d, w)[start + 1 + i] == view[lh[i]] {
      ApplyAt(d, w, i);
    }
    forall n | n in d && !(start < n <= start + k) ensures Apply(d, w)[n] == d[n] {
      ApplyElsewhere(d, w, n);
    }
  }

  /** The transaction agrees with the disk outside the logged blocks. */
  ghost predicate Agrees(start: nat, lh: seq<Word>, d: DiskMap, view: DiskMap) {
    view.Keys == d.Keys && forall n :: n in d && !InLog(start, n) && n !in lh ==> view[n] == d[n]
  }

  /** The non-empty header write is the commit point. */
  lemma CommitPoint(start: nat, lh: seq<Word>, d: DiskMap, view: DiskMap, head: Block)
    requires Loggable(start, lh, d) && Agrees(start, lh, d, view)
    ensures var e := Apply(d, LogWrites(start, lh, view))[start := PutHead(head, lh)];
            Promises(start, e, view) && GetHead(e[start]) == lh &&
            InstallWrites(start, lh, e) == seq(|lh|, i requires 0 <= i < |lh| => DiskWrite(lh[i], view[lh[i]]))
  {
    hide Apply, PutHead;
    var w := LogWrites(start, lh, view);
    assert w[..|lh|] == w;
    LogEffect(start, lh, d, view, |lh|);
    HeadRoundTrip(head, lh);
    assert InLog(start, start);
  }

  /** A crash between the header write and the end of the installation. */
  lemma CommitMiddle(start: nat, lh: seq<Word>, d: DiskMap, view: DiskMap, head: Block, k: nat)
    requires Loggable(start, lh, d) && Agrees(start, lh, d, view) && |lh| < k <= 2 * |lh| + 1
    ensures var e := Apply(d, CommitWrites(start, lh, view, head)[..k]);
            Promises(start, e, view) && (k == |lh| + 1 ==> SameHome(start, e, d))
  {
    hide Apply, Promises, HeadOk, InstallWrites, PutHead;
    var lw, w := LogWrites(start, lh, view), CommitWrites(start, lh, view, head);
    var e2 := Apply(d, lw)[start := PutHead(head, lh)];
    assert lw[..|lh|] == lw;
    LogEffect(start, lh, d, view, |lh|);
    CommitPoint(start, lh, d, view, head);
    PromisesOk(start, e2, view);
    ApplyOne(d, lw, HeadWrite(start, head, lh));
    var iw := InstallWrites(start, lh, e2)[..k - |lh| - 1];
    assert w[..k] == (lw + [HeadWrite(start, head, lh)]) + iw;
    ApplyAppend(d, lw + [HeadWrite(start, head, lh)], iw);
    InstallPrefix(start, e2, view, k - |lh| - 1);
    if k == |lh| + 1 {
      assert iw == [];
      ApplyNone(e2);
      assert InLog(start, start);
    }
  }

  /** A commit that completes. */
  lemma CommitEnd(start: nat, lh: seq<Word>, d: DiskMap, view: DiskMap, head: Block)
    requires Loggable(start, lh, d) && Agrees(start, lh, d, view)
    ensures var e := Apply(d, CommitWrites(start, lh, view, head)); Clean(start, e) && SameHome(start, e, view)
  {
    hide Apply, Promises, HeadOk, InstallWrites, Clean, PutHead;
    var lw := LogWrites(start, lh, view);
    var e2 := Apply(d, lw)[start := PutHead(head, lh)];
    CommitPoint(start, lh, d, view, head);
    PromisesOk(start, e2, view);
    ApplyOne(d, lw, HeadWrite(start, head, lh));
    var iw := InstallWrites(start, lh, e2);
    assert iw[..|lh|] == iw;
    InstallPrefix(start, e2, view, |lh|);
    PromisesOk(start, Apply(e2, iw), view);
    ClearHead(start, Apply(e2, iw), view);
    ApplyAppend(d, lw + [HeadWrite(start, head, lh)], iw);
    ApplyOne(d, (lw + [HeadWrite(start, head, lh)]) + iw, HeadWrite(start, PutHead(head, lh), []));
  }

  /** Any crash point of commit: before the header write recovery gives the old home
      blocks, after it the new ones. */
  lemma CommitPrefix(start: nat, lh: seq<Word>, d: DiskMap, view: DiskMap, head: Block, k: nat)
    requires Clean(start, d) && Loggable(start, lh, d) && Agrees(start, lh, d, view)
    requires k <= |CommitWrites(start, lh, view, head)|
    ensures var e := Apply(d, CommitWrites(start, lh, view, head)[..k]);
            && Promises(start, e, if k <= |lh| then d else view)
            && (k <= |lh| + 1 ==> SameHome(start, e, d))
            && (k == |CommitWrites(start, lh, view, head)| ==> Clean(start, e) && SameHome(start, e, view))
  {
    hide Apply, Promises, HeadOk, Clean;
    var w := CommitWrites(start, lh, view, head);
    if k <= |lh| {
      assert w[..k] == LogWrites(start, lh, view)[..k];
      LogEffect(start, lh, d, view, k);
      LogKeepsClean(start, lh, d, view, k);
    } else if k <= 2 * |lh| + 1 {
      CommitMiddle(start, lh, d, view, head, k);
    } else {
      assert w[..k] == w;
      CommitEnd(start, lh, d, view, head);
      CleanPromises(start, Apply(d, w), view);
    }
  }

  lemma ApplyNone(d: DiskMap)
    ensures Apply(d, []) == d
  {
  }

  lemma LogKeepsClean(start: nat, lh: seq<Word>, d: DiskMap, view: DiskMap, k: nat)
    requires Clean(start, d) && Loggable(start, lh, d) && view.Keys == d.Keys && k <= |lh|
    ensures Promises(start, Apply(d, LogWrites(start, lh, view)[..k]), d)
  {
    hide Apply;
    LogEffect(start, lh, d, view, k);
    assert forall i {:trigger lh[i]} :: 0 <= i < |lh| ==> InLog(start, start + 1 + i);
    assert forall n :: n in d && !InLog(start, n) ==> !(start < n <= start + k);
  }

  /** Disks after a series of recoveries, the i-th of them cut short after cuts[i] writes. */
  ghost function AfterCrashes(start: nat, d: DiskMap, cuts: seq<nat>): (e: DiskMap)
    requires HeadOk(start, d)
    ensures HeadOk(start, e)
    decreases |cuts|
  {
    if cuts == [] then d
    else
      var w := RecoverWrites(start, d);
      var k := if cuts[0] <= |w| then cuts[0] else |w|;
      RecoveryKeepsHead(start, d, k);
      AfterCrashes(start, Apply(d, w[..k]), cuts[1..])
  }

  /** The disk after one recovery that completes. */
  ghost function Recovered(start: nat, d: DiskMap): DiskMap
    requires HeadOk(start, d)
  {
    Apply(d, RecoverWrites(start, d))
  }

  /** The home blocks that a header promises. */
  ghost function Promised(start: nat, d: DiskMap): (t: DiskMap)
    requires HeadOk(start, d)
    ensures Promises(start, d, t)
  {
    var lh := GetHead(d[start]);
    var w := InstallWrites(start, lh, d);
    assert w[..|lh|] == w;
    InstallEffect(start, lh, d, |lh|);
    assert lh[..|lh|] == lh;
    Apply(d, w)
  }

  lemma RecoveryKeepsHead(start: nat, d: DiskMap, k: nat)
    requires HeadOk(start, d) && k <= |RecoverWrites(start, d)|
    ensures HeadOk(start, Apply(d, RecoverWrites(start, d)[..k]))
  {
    RecoverPrefix(start, d, Promised(start, d), k);
  }

  /** However many recoveries are cut short, the one that completes redeems the promise. */
  lemma {:induction false} RecoveryRedeems(start: nat, d: DiskMap, target: DiskMap, cuts: seq<nat>)
    requires Promises(start, d, target)
    ensures var r := Recovered(start, AfterCrashes(start, d, cuts)); Clean(start, r) && SameHome(start, r, target)
    decreases |cuts|
  {
    hide Apply, Promises, HeadOk, Clean, SameHome, RecoverWrites;
    PromisesOk(start, d, target);
    var w := RecoverWrites(start, d);
    assert w[..|w|] == w;
    if cuts == [] {
      RecoverPrefix(start, d, target, |w|);
    } else {
      var k := if cuts[0] <= |w| then cuts[0] else |w|;
      RecoverPrefix(start, d, target, k);
      RecoveryRedeems(start, Apply(d, w[..k]), target, cuts[1..]);
    }
  }

  /** Crash atomicity: stop commit after any of its writes, cut any number of recoveries
      short at any of theirs; the next recovery that completes leaves every home block with
      its old contents, or every one with its new contents, the latter exactly when the
      non-empty header had been written, and an empty header in both cases. */
  lemma CrashAtomicity(start: nat, lh: seq<Word>, d: DiskMap, view: DiskMap, head: Block, k: nat, cuts: seq<nat>)
    requires Clean(start, d) && Loggable(start, lh, d) && Agrees(start, lh, d, view)
    requires k <= |CommitWrites(start, lh, view, head)|
    ensures var e := Apply(d, CommitWrites(start, lh, view, head)[..k]);
            && HeadOk(start, e)
            && var r := Recovered(start, AfterCrashes(start, e, cuts));
               && r.Keys == d.Keys && GetWord(r[start], 0) == 0
               && forall n :: n in d && !(start <= n < start + 30) ==> r[n] == if k <= |lh| then d[n] else view[n]
  {
    hide Apply, CommitWrites, Promises, RecoverWrites, Recovered, AfterCrashes;
    var e := Apply(d, CommitWrites(start, lh, view, head)[..k]);
    var target := if k <= |lh| then d else view;
    CommitPrefix(start, lh, d, view, head, k);
    PromisesOk(start, e, target);
    RecoveryRedeems(start, e, target, cuts);
    assert forall n: nat :: InLog(start, n) <==> start <= n < start + 30;
  }
}
