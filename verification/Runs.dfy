/** Whole runs of the file system calls over the log: any number of operations between
    commits, power failures anywhere, recoveries that fail in turn. */
module Runs {
  import opened Blocks
  import opened Bio
  import opened Commit

  /** hist lists the logical contents after each completed operation since power-on, the contents at power-on first, and,
      at the indices in torn, those at each sync that ran in the middle of an operation; the last finished commit
      covers hist[..done + 1]. */
  datatype Sys = Sys(disk: DiskMap, view: DiskMap, lh: seq<Word>, inOp: bool, hist: seq<DiskMap>, done: nat, torn: set<nat>)

  datatype Event =
    | Begin                                    // begin_op returns
    | Write(n: nat, data: Block)               // bread, modify, log_write, brelse
    | End                                      // end_op, up to its decision to commit
    | Mark                                     // sync is called while an operation is running
    | Commit                                   // the commit of end_op or of sync
    | Crash(cuts: seq<nat>)                    // power fails outside commit, and again during recoveries
    | CrashInCommit(k: nat, cuts: seq<nat>)    // power fails after k writes of a commit

  ghost predicate PowerOn(start: nat, d: DiskMap, s: Sys) {
    s == Sys(d, d, [], false, [d], 0, {})
  }

  /** The writes of the commit that would start now. */
  ghost function Pending(start: nat, s: Sys): seq<DiskWrite>
    requires start in s.view && |s.lh| <= LOGSIZE && forall i :: 0 <= i < |s.lh| ==> s.lh[i] in s.view
  {
    CommitWrites(start, s.lh, s.view, s.view[start])
  }

  ghost predicate Ready(start: nat, s: Sys) {
    start in s.view && |s.lh| <= LOGSIZE && forall i :: 0 <= i < |s.lh| ==> s.lh[i] in s.view
  }

  /** What the writes of commit do to the disk and to what readers see. */
  ghost function Flushed(start: nat, s: Sys): Sys
    requires Ready(start, s)
  {
    if s.lh == [] then s
    else s.(disk := Apply(s.disk, Pending(start, s)), view := Apply(s.view, Pending(start, s)), lh := [])
  }

  /** Reboot on disk d: recoveries cut short as cuts says, then one that completes. */
  ghost predicate Reboots(start: nat, d: DiskMap, cuts: seq<nat>, s: Sys) {
    HeadOk(start, d) ==> PowerOn(start, Recovered(start, AfterCrashes(start, d, cuts)), s)
  }

  /** What readers see is the last entry of the history, as it is between operations and when sync has just been called. */
  ghost predicate Quiet(start: nat, s: Sys) {
    s.hist != [] && SameHome(start, s.view, s.hist[|s.hist| - 1])
  }

  /** The history with what readers see. */
  ghost function Marked(s: Sys): Sys {
    s.(hist := s.hist + [s.view], torn := s.torn + {|s.hist|})
  }

  ghost predicate Next(start: nat, s: Sys, e: Event, s': Sys) {
    match e
    case Begin => !s.inOp && s' == s.(inOp := true)
    case Write(n, data) =>
      && s.inOp && n in s.view && !InLog(start, n) && n < 0x1_0000_0000
      && (n in s.lh || |s.lh| < LOGSIZE - 1)
      && s' == s.(view := s.view[n := data], lh := if n in s.lh then s.lh else s.lh + [n])
    case End => s.inOp && s' == s.(inOp := false, hist := s.hist + [s.view])
    case Mark => s.inOp && s' == Marked(s)
    case Commit =>
      Quiet(start, s) && Ready(start, s) && s' == Flushed(start, s).(done := |s.hist| - 1)
    case Crash(cuts) => Reboots(start, s.disk, cuts, s')
    case CrashInCommit(k, cuts) =>
      && Quiet(start, s) && Ready(start, s) && s.lh != [] && k <= |Pending(start, s)|
      && Reboots(start, Apply(s.disk, Pending(start, s)[..k]), cuts, s')
  }

  ghost predicate Inv(start: nat, s: Sys) {
    && Clean(start, s.disk) && Loggable(start, s.lh, s.disk)
    && s.view.Keys == s.disk.Keys && (forall n :: n in s.disk && n !in s.lh ==> s.view[n] == s.disk[n])
    && s.done < |s.hist| && SameHome(start, s.disk, s.hist[s.done])
    && (!s.inOp ==> SameHome(start, s.view, s.hist[|s.hist| - 1]))
  }

  lemma PowerOnInv(start: nat, d: DiskMap, s: Sys)
    requires PowerOn(start, d, s) && Clean(start, d)
    ensures Inv(start, s)
  {
  }

  lemma SameHomeTrans(start: nat, a: DiskMap, b: DiskMap, c: DiskMap)
    requires SameHome(start, a, b) && SameHome(start, b, c)
    ensures SameHome(start, a, c)
  {
  }

  /** The invariant gives what the commit lemmas ask for. */
  lemma InvReady(start: nat, s: Sys)
    requires Inv(start, s)
    ensures Ready(start, s) && Agrees(start, s.lh, s.disk, s.view) && HeadOk(start, s.disk)
    ensures s.done < |s.hist| && Promises(start, s.disk, s.hist[s.done])
  {
    CleanPromises(start, s.disk, s.hist[s.done]);
  }

  /** However often power fails during recovery, the system comes up on the home blocks that the disk promised. */
  lemma RebootStep(start: nat, d: DiskMap, target: DiskMap, cuts: seq<nat>, s: Sys)
    requires Promises(start, d, target) && HeadOk(start, d) && Reboots(start, d, cuts, s)
    ensures Inv(start, s) && SameHome(start, s.disk, target) && s.view == s.disk && s.torn == {}
  {
    hide Apply, Promises, RecoverWrites, Recovered, AfterCrashes;
    RecoveryRedeems(start, d, target, cuts);
    PowerOnInv(start, s.disk, s);
  }

  /** A crash inside commit gives the state of the last finished commit, or that of the
      last entry of the history once the header is on the disk. */
  lemma CrashInCommitStep(start: nat, s: Sys, k: nat, cuts: seq<nat>, s': Sys)
    requires Inv(start, s) && Next(start, s, CrashInCommit(k, cuts), s')
    ensures Inv(start, s') && s'.view == s'.disk && s'.torn == {}
    ensures SameHome(start, s'.disk, s.hist[if k <= |s.lh| then s.done else |s.hist| - 1])
  {
    hide Apply, CommitWrites, Promises, RecoverWrites, Recovered, AfterCrashes, SameHome, Clean, Loggable, Flushed;
    InvReady(start, s);
    var d := Apply(s.disk, Pending(start, s)[..k]);
    var target := if k <= |s.lh| then s.disk else s.view;
    CommitPrefix(start, s.lh, s.disk, s.view, s.view[start], k);
    PromisesOk(start, d, target);
    RebootStep(start, d, target, cuts, s');
    SameHomeTrans(start, s'.disk, target, s.hist[if k <= |s.lh| then s.done else |s.hist| - 1]);
  }

  /** Whenever its writes are made, the home blocks on the disk are then those that readers see. */
  lemma FlushStep(start: nat, s: Sys)
    requires Inv(start, s)
    ensures Ready(start, s)
    ensures var t := Flushed(start, s);
            && Clean(start, t.disk) && SameHome(start, t.disk, s.view) && SameHome(start, t.view, s.view)
            && (forall n :: n in t.disk ==> n in t.view && t.view[n] == t.disk[n]) && t.view.Keys == t.disk.Keys
  {
    hide Apply, CommitWrites;
    InvReady(start, s);
    if s.lh != [] {
      var w := Pending(start, s);
      assert w[..|w|] == w;
      CommitPrefix(start, s.lh, s.disk, s.view, s.view[start], |w|);
      WritesThrough(start, s.lh, s.disk, s.view, s.view[start]);
    }
  }

  /** A commit that completes. */
  lemma CommitStep(start: nat, s: Sys, s': Sys)
    requires Inv(start, s) && Next(start, s, Event.Commit, s')
    ensures Inv(start, s') && s'.lh == [] && SameHome(start, s'.disk, s.view) && s'.done == |s'.hist| - 1
  {
    hide Apply, CommitWrites, Clean, HeadOk;
    FlushStep(start, s);
    EmptyLoggable(start, s'.disk);
    SameHomeTrans(start, s'.disk, s.view, s.hist[|s.hist| - 1]);
  }

  lemma EmptyLoggable(start: nat, d: DiskMap)
    requires Clean(start, d)
    ensures Loggable(start, [], d)
  {
  }

  /** After all its writes commit has made the disk and the cached contents the same. */
  lemma WritesThrough(start: nat, lh: seq<Word>, d: DiskMap, view: DiskMap, head: Block)
    requires Loggable(start, lh, d) && view.Keys == d.Keys && forall n :: n in d && n !in lh ==> view[n] == d[n]
    ensures var w := CommitWrites(start, lh, view, head);
            Apply(d, w) == Apply(view, w) && SameHome(start, Apply(view, w), view)
  {
    hide Apply, CommitWrites;
    var w := CommitWrites(start, lh, view, head);
    CommitTargets(start, lh, d, view, head);
    ApplyKeys(d, w);
    ApplyKeys(view, w);
    forall n | n in d ensures Apply(d, w)[n] == Apply(view, w)[n] {
      if forall i :: 0 <= i < |w| ==> w[i].blockno != n {
        ApplyElsewhere(d, w, n);
        ApplyElsewhere(view, w, n);
      } else {
        ApplyAgain(d, view, w, n);
      }
    }
    forall n | n in d && !InLog(start, n) ensures Apply(view, w)[n] == view[n] {
      ApplySame(view, w, n);
    }
  }

  lemma CommitTargets(start: nat, lh: seq<Word>, d: DiskMap, view: DiskMap, head: Block)
    requires Loggable(start, lh, d) && view.Keys == d.Keys
    ensures var w := CommitWrites(start, lh, view, head);
            && (forall i :: 0 <= i < |w| ==> w[i].blockno in d)
            && (forall i :: 0 <= i < |w| && !InLog(start, w[i].blockno) ==> w[i].data == view[w[i].blockno])
            && (forall n :: n in lh ==> exists i :: 0 <= i < |w| && w[i].blockno == n)
  {
    hide PutHead;
    var w := CommitWrites(start, lh, view, head);
    assert InLog(start, start);
    assert forall i :: 0 <= i < |lh| ==> InLog(start, w[i].blockno);
    assert forall i {:trigger lh[i]} :: 0 <= i < |lh| ==> w[|lh| + 1 + i] == DiskWrite(lh[i], view[lh[i]]);
  }

  /** A block that some write reaches ends up the same whatever the disk held. */
  lemma {:induction false} ApplyAgain(d: DiskMap, e: DiskMap, w: seq<DiskWrite>, n: nat)
    requires exists i :: 0 <= i < |w| && w[i].blockno == n
    ensures n in Apply(d, w) && n in Apply(e, w) && Apply(d, w)[n] == Apply(e, w)[n]
  {
    if w[|w| - 1].blockno != n {
      var i :| 0 <= i < |w| && w[i].blockno == n;
      assert w[..|w| - 1][i].blockno == n;
      ApplyAgain(d, e, w[..|w| - 1], n);
    }
  }

  lemma {:induction false} ApplySame(d: DiskMap, w: seq<DiskWrite>, n: nat)
    requires n in d && forall i :: 0 <= i < |w| && w[i].blockno == n ==> w[i].data == d[n]
    ensures n in Apply(d, w) && Apply(d, w)[n] == d[n]
  {
    if w != [] {
      ApplySame(d, w[..|w| - 1], n);
    }
  }

  lemma QuietStep(start: nat, s: Sys, e: Event, s': Sys)
    requires Inv(start, s) && Next(start, s, e, s') && (e.Begin? || e.Write? || e.End? || e.Mark?)
    ensures Inv(start, s') && s'.disk == s.disk
  {
    hide Apply, CommitWrites;
  }

  lemma InvStep(start: nat, s: Sys, e: Event, s': Sys)
    requires Inv(start, s) && Next(start, s, e, s')
    ensures Inv(start, s')
  {
    hide Inv, Reboots;
    match e
    case Crash(cuts) =>
      InvReady(start, s);
      RebootStep(start, s.disk, s.hist[s.done], cuts, s');
    case CrashInCommit(k, cuts) => CrashInCommitStep(start, s, k, cuts, s');
    case Commit => CommitStep(start, s, s');
    case _ => QuietStep(start, s, e, s');
  }

  /** A run: states ss joined by events es, from power-on on a disk with an empty log. */
  ghost predicate Run(start: nat, ss: seq<Sys>, es: seq<Event>) {
    && |ss| == |es| + 1
    && PowerOn(start, ss[0].disk, ss[0]) && Clean(start, ss[0].disk)
    && forall i :: 0 <= i < |es| ==> Next(start, ss[i], es[i], ss[i + 1])
  }

  lemma {:induction false} RunInv(start: nat, ss: seq<Sys>, es: seq<Event>, i: nat)
    requires Run(start, ss, es) && i <= |es|
    ensures Inv(start, ss[i])
  {
    if i == 0 {
      PowerOnInv(start, ss[0].disk, ss[0]);
    } else {
      RunInv(start, ss, es, i - 1);
      InvStep(start, ss[i - 1], es[i - 1], ss[i]);
    }
  }

  /** Which entry of the history a crash leads back to: the last one covered by the last finished
      commit, or the last one of all when the header of a commit in progress had reached the disk. */
  ghost function Survivor(s: Sys, e: Event): nat
    requires (e.Crash? || e.CrashInCommit?) && s.hist != []
  {
    if e.CrashInCommit? && e.k > |s.lh| then |s.hist| - 1 else s.done
  }

  lemma InvClean(start: nat, s: Sys)
    requires Inv(start, s)
    ensures Clean(start, s.disk)
  {
  }

  /** Prefix consistency over whole runs. */
  lemma PrefixConsistency(start: nat, ss: seq<Sys>, es: seq<Event>, i: nat)
    requires Run(start, ss, es) && i < |es| && (es[i].Crash? || es[i].CrashInCommit?)
    ensures ss[i].hist != []
    ensures var s, j := ss[i], Survivor(ss[i], es[i]);
            && s.done <= j < |s.hist| && (es[i].Crash? ==> j == s.done)
            && (es[i].CrashInCommit? ==> j == if es[i].k <= |s.lh| then s.done else |s.hist| - 1)
            && SameHome(start, ss[i + 1].disk, s.hist[j]) && start in ss[i + 1].disk && GetWord(ss[i + 1].disk[start], 0) == 0
            && ss[i + 1].disk.Keys == s.hist[j].Keys
            && (forall n :: n in s.hist[j] && !(start <= n < start + 30) ==> ss[i + 1].disk[n] == s.hist[j][n])
            && ((forall m :: 0 <= m < i ==> !es[m].Mark?) ==> j !in s.torn)
  {
    hide Reboots, Inv, Quiet, SameHome, Clean, CommitWrites, Apply, Pending;
    if forall m :: 0 <= m < i ==> !es[m].Mark? { NoneTorn(start, ss, es, i); }
    RunInv(start, ss, es, i);
    RunInv(start, ss, es, i + 1);
    InvClean(start, ss[i + 1]);
    match es[i] {
      case Crash(cuts) =>
        InvReady(start, ss[i]);
        RebootStep(start, ss[i].disk, ss[i].hist[ss[i].done], cuts, ss[i + 1]);
      case CrashInCommit(k, cuts) => CrashInCommitStep(start, ss[i], k, cuts, ss[i + 1]);
    }
    SameExactly(start, ss[i + 1].disk, ss[i].hist[Survivor(ss[i], es[i])]);
    CleanExactly(start, ss[i + 1].disk);
  }

  lemma SameExactly(start: nat, d: DiskMap, e: DiskMap)
    requires SameHome(start, d, e)
    ensures d.Keys == e.Keys && forall n :: n in e && !(start <= n < start + 30) ==> d[n] == e[n]
  {
    assert forall n: nat :: InLog(start, n) <==> start <= n < start + 30;
  }

  lemma CleanExactly(start: nat, d: DiskMap)
    requires Clean(start, d)
    ensures start in d && GetWord(d[start], 0) == 0
  {
  }

  /** In any run the home blocks on the disk are those of the last finished commit, and a
      commit in progress leaves them alone until its header has been written. */
  lemma NoEarlyHomeWrite(start: nat, ss: seq<Sys>, es: seq<Event>, i: nat, k: nat)
    requires Run(start, ss, es) && i <= |es|
    ensures var s := ss[i];
            && Ready(start, s) && s.done < |s.hist| && SameHome(start, s.disk, s.hist[s.done])
            && (k <= |s.lh| + 1 ==>
                  k <= |Pending(start, s)| && SameHome(start, Apply(s.disk, Pending(start, s)[..k]), s.hist[s.done]))
  {
    hide Apply;
    var s := ss[i];
    RunInv(start, ss, es, i);
    InvReady(start, s);
    if k <= |s.lh| + 1 {
      CommitPrefix(start, s.lh, s.disk, s.view, s.view[start], k);
      SameHomeTrans(start, Apply(s.disk, Pending(start, s)[..k]), s.disk, s.hist[s.done]);
    }
  }

  /* ---------- sync while an operation is running ---------- */

  /** Disk d holds the result of a completed operation, or what was there at power-on. */
  ghost predicate Whole(start: nat, s: Sys, d: DiskMap) {
    exists j :: 0 <= j < |s.hist| && j !in s.torn && SameHome(start, d, s.hist[j])
  }

  /** The history at the call of sync. */
  ghost function Called(s: Sys): Sys {
    if s.inOp then Marked(s) else s
  }

  /** sync commits whether or not an operation is running. Let the power fail after any number of its writes, all of
      them included: recovery shows what was durable before, or, once the header is written, what readers saw at the
      call, and the latter is the result of a completed operation if and only if it was one then. */
  lemma SyncExactly(start: nat, s: Sys, k: nat, cuts: seq<nat>, t: Sys)
    requires Inv(start, s) && Next(start, Called(s), CrashInCommit(k, cuts), t)
    ensures Inv(start, t) && SameHome(start, t.disk, if k <= |s.lh| then s.hist[s.done] else s.view)
    ensures Whole(start, s, t.disk) <==> Whole(start, s, if k <= |s.lh| then s.hist[s.done] else s.view)
    ensures s.torn == {} && (k <= |s.lh| || !s.inOp) ==> Whole(start, s, t.disk)
  {
    hide Reboots, CommitWrites, Apply, Inv, Next, SameHome, Whole;
    var c := Called(s);
    InvEntries(start, s);
    if s.inOp { QuietStep(start, s, Mark, c); }
    CrashInCommitStep(start, c, k, cuts, t);
    if k > |s.lh| && !s.inOp { SameHomeBoth(start, t.disk, s.view, s.hist[|s.hist| - 1]); }
    var d := if k <= |s.lh| then s.hist[s.done] else s.view;
    WholeLike(start, s, t.disk, d);
    if s.torn == {} && (k <= |s.lh| || !s.inOp) { WholeEntry(start, s, t.disk, if k <= |s.lh| then s.done else |s.hist| - 1); }
  }

  lemma InvEntries(start: nat, s: Sys)
    requires Inv(start, s)
    ensures s.done < |s.hist| && (!s.inOp ==> SameHome(start, s.view, s.hist[|s.hist| - 1]))
    ensures s.inOp ==> Next(start, s, Mark, Marked(s))
  {
  }

  lemma SameHomeBoth(start: nat, a: DiskMap, b: DiskMap, c: DiskMap)
    requires SameHome(start, a, c) && SameHome(start, b, c)
    ensures SameHome(start, a, b)
  {
  }

  lemma WholeLike(start: nat, s: Sys, a: DiskMap, b: DiskMap)
    requires SameHome(start, a, b)
    ensures Whole(start, s, a) <==> Whole(start, s, b)
  {
    forall j | 0 <= j < |s.hist| ensures SameHome(start, a, s.hist[j]) <==> SameHome(start, b, s.hist[j]) {
    }
  }

  lemma WholeEntry(start: nat, s: Sys, d: DiskMap, j: nat)
    requires j < |s.hist| && j !in s.torn && SameHome(start, d, s.hist[j])
    ensures Whole(start, s, d)
  {
  }

  /** Without such a sync nothing in the history is torn. */
  lemma {:induction false} NoneTorn(start: nat, ss: seq<Sys>, es: seq<Event>, i: nat)
    requires Run(start, ss, es) && i <= |es| && forall j :: 0 <= j < i ==> !es[j].Mark?
    ensures ss[i].torn == {}
  {
    hide Inv, Reboots;
    if i > 0 {
      NoneTorn(start, ss, es, i - 1);
      RunInv(start, ss, es, i - 1);
      match es[i - 1]
      case Crash(cuts) =>
        InvReady(start, ss[i - 1]);
        RebootStep(start, ss[i - 1].disk, ss[i - 1].hist[ss[i - 1].done], cuts, ss[i]);
      case CrashInCommit(k, cuts) => CrashInCommitStep(start, ss[i - 1], k, cuts, ss[i]);
      case _ =>
    }
  }

  function BlankBlock(n: nat): Block {
    ZeroBlock()
  }

  /** A disk of 40 empty blocks. */
  function BlankDisk(): DiskMap {
    map n: nat | n < 40 :: BlankBlock(n)
  }

  /** Block 35 of it is changed to this one by an operation that means to change more. */
  function First(): Block {
    SetWord(ZeroBlock(), 0, 1)
  }

  /** That operation at work. */
  function Half(): Sys {
    var d := BlankDisk();
    Sys(d, d[35 := First()], [35], true, [d], 0, {})
  }

  lemma HalfRuns()
    ensures var s, d := Half(), BlankDisk();
            Run(2, [Sys(d, d, [], false, [d], 0, {}), Sys(d, d, [], true, [d], 0, {}), s, Marked(s)], [Begin, Write(35, First()), Mark])
    ensures First() != ZeroBlock() && Half().hist == [BlankDisk()]
  {
    ZeroWords();
    assert GetWord(First(), 0) == 1;
  }

  /** sync runs now, and the power fails when it is done. */
  lemma TornOperation(cuts: seq<nat>, t: Sys)
    ensures var s, d := Half(), BlankDisk();
            && Run(2, [Sys(d, d, [], false, [d], 0, {}), Sys(d, d, [], true, [d], 0, {}), s, Marked(s)], [Begin, Write(35, First()), Mark])
            && Ready(2, Marked(s))
            && var c := Flushed(2, Marked(s)).(done := 1);
               && Next(2, Marked(s), Event.Commit, c)
               && (Next(2, c, Crash(cuts), t) ==> 35 in t.disk && t.disk[35] == First() != d[35] && !Whole(2, s, t.disk))
  {
    hide Reboots, Flushed, Apply, Run, Inv, First, Half, BlankDisk, SameHome;
    var s, d := Half(), BlankDisk();
    var m := Marked(s);
    HalfRuns();
    RunInv(2, [Sys(d, d, [], false, [d], 0, {}), Sys(d, d, [], true, [d], 0, {}), s, m], [Begin, Write(35, First()), Mark], 3);
    InvReady(2, m);
    SameHomeSelf(2, m.view);
    var c := Flushed(2, m).(done := 1);
    if Next(2, c, Crash(cuts), t) {
      CommitThenCrash(2, m, c, cuts, t);
      HalfSeen(t.disk);
    }
  }

  lemma CommitThenCrash(start: nat, s: Sys, c: Sys, cuts: seq<nat>, t: Sys)
    requires Inv(start, s) && Next(start, s, Event.Commit, c) && Next(start, c, Crash(cuts), t)
    ensures SameHome(start, t.disk, s.view)
  {
    hide Reboots, Flushed, Apply;
    CommitStep(start, s, c);
    InvReady(start, c);
    RebootStep(start, c.disk, c.hist[c.done], cuts, t);
    SameHomeTrans(start, t.disk, c.hist[c.done], s.view);
  }

  lemma SameHomeSelf(start: nat, d: DiskMap)
    ensures SameHome(start, d, d)
  {
  }

  lemma HalfSeen(d: DiskMap)
    requires SameHome(2, d, Half().view)
    ensures 35 in d && d[35] == First() && 35 in BlankDisk() && BlankDisk()[35] == ZeroBlock() && !Whole(2, Half(), d)
  {
    hide First;
    HalfRuns();
    assert 35 in Half().view && !InLog(2, 35);
  }
}
