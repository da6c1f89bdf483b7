/** Power failures between and inside the transactions of filewrite: filewrite over the log. */
module FileCrash {
  import opened Blocks
  import opened BlockTree
  import opened FileWrite

  import Bio
  import Commit
  import FileData
  import Files
  import Runs

  /** The blocks of disk d as one row. */
  ghost function Row(d: Bio.DiskMap, size: nat): (b: seq<Block>)
    requires forall c :: 0 <= c < size ==> c in d
    ensures |b| == size
  {
    seq(size, c requires 0 <= c < size => d[c])
  }

  /** Outside the log area disk d holds the blocks b. */
  ghost predicate Shows(start: nat, d: Bio.DiskMap, b: seq<Block>) {
    && (forall c :: 0 <= c < |b| ==> c in d)
    && forall c :: 0 <= c < |b| && !Commit.InLog(start, c) ==> d[c] == b[c]
  }

  /** mkfs: the log lies before the bitmap, and the inode i in neither. */
  ghost predicate Layout(sb: Super, start: nat, i: nat) {
    start + Commit.LOGSIZE <= sb.bmapstart && !Commit.InLog(start, i)
  }

  /** What the log area holds does not matter to a file. */
  lemma OnDiskKept(sb: Super, start: nat, b: seq<Block>, d: Bio.DiskMap, i: nat, k: nat, bytes: seq<Byte>)
    requires OnDisk(sb, b, i, k, bytes) && Layout(sb, start, i) && Shows(start, d, b)
    ensures Recovers(sb, d, i, k, bytes)
  {
    hide Tree, NoHoles, Content, Files.Stored;
    var a: seq<Word>, size: Word :| DiskFile(sb, b, i, k, a, size, bytes);
    var b2 := Row(d, sb.size);
    assert SameFrom(sb.bmapstart, b, b2);
    InodeBlock(sb, a, b, b2, size);
    assert b2[i] == b[i];
    assert DiskFile(sb, b2, i, k, a, size, bytes);
  }

  ghost predicate Recovers(sb: Super, d: Bio.DiskMap, i: nat, k: nat, bytes: seq<Byte>) {
    exists b: seq<Block> :: |b| == sb.size && (forall c :: 0 <= c < sb.size ==> c in d && d[c] == b[c]) && OnDisk(sb, b, i, k, bytes)
  }

  /** Crash safety of filewrite. Take any run of the log in which, from moment h on, the operations completed are the
      transactions of one filewrite call (hist), and let the power fail at any point of it, in the middle of a commit or of
      recoveries as well. Once what came before moment h is durable, the disk that recovery leaves holds a sound file,
      whose bytes are those written by a prefix of the chunks that covers the last finished commit. */
  lemma CrashDuringFileWrite(sb: Super, start: nat, ss: seq<Runs.Sys>, es: seq<Runs.Event>, e: nat, h: nat,
                             hist: seq<seq<Block>>, i: nat, k: nat, c0: seq<Byte>, off: nat, src: seq<Byte>, total: nat)
    requires Runs.Run(start, ss, es) && e < |es| && (es[e].Crash? || es[e].CrashInCommit?)
    requires Layout(sb, start, i) && Chunks(sb, hist, i, k, c0, off, src, total)
    requires h <= ss[e].done && |ss[e].hist| <= h + |hist|
    requires forall j :: h <= j < |ss[e].hist| ==> Shows(start, ss[e].hist[j], hist[j - h])
    ensures exists t :: ss[e].done - h <= t < |ss[e].hist| - h &&
              Recovers(sb, ss[e + 1].disk, i, k, FileData.Splice(c0, off, src[..FileData.Min(t * MAXCHUNK, total)]))
  {
    hide OnDisk, FileData.Splice, Recovers, Shows, Layout, Commit.SameHome, Commit.Clean, Runs.Next, Runs.PowerOn;
    Runs.PrefixConsistency(start, ss, es, e);
    var s, j := ss[e], Runs.Survivor(ss[e], es[e]);
    var t := j - h;
    var bytes := FileData.Splice(c0, off, src[..FileData.Min(t * MAXCHUNK, total)]);
    assert OnDisk(sb, hist[t], i, k, bytes);
    SizeOf(sb, hist[t], i, k, bytes);
    Recovered(start, s.hist[j], ss[e + 1].disk, hist[t]);
    OnDiskKept(sb, start, hist[t], ss[e + 1].disk, i, k, bytes);
  }

  lemma SizeOf(sb: Super, b: seq<Block>, i: nat, k: nat, bytes: seq<Byte>)
    requires OnDisk(sb, b, i, k, bytes)
    ensures |b| == sb.size
  {
  }

  lemma Recovered(start: nat, d: Bio.DiskMap, d2: Bio.DiskMap, b: seq<Block>)
    requires Shows(start, d, b) && Commit.SameHome(start, d2, d)
    ensures Shows(start, d2, b)
  {
  }

  /* ---------- A transaction as an operation of the run ---------- */

  ghost function Unlisted(todo: set<nat>, lh: seq<Word>): set<nat> {
    set n | n in todo && n !in lh
  }

  ghost predicate Steps(start: nat, ss: seq<Runs.Sys>, es: seq<Runs.Event>) {
    |ss| == |es| + 1 && forall j :: 0 <= j < |es| ==> Runs.Next(start, ss[j], es[j], ss[j + 1])
  }

  /** t is s with the blocks in todo written from b. */
  ghost predicate Wrote(s: Runs.Sys, t: Runs.Sys, todo: set<nat>, b: seq<Block>) {
    && t.inOp && t.disk == s.disk && t.hist == s.hist && t.done == s.done && t.view.Keys == s.view.Keys
    && forall n :: n in s.view ==> t.view[n] == if n in todo && n < |b| then b[n] else s.view[n]
  }

  lemma {:induction false} Writes(start: nat, s: Runs.Sys, todo: set<nat>, b: seq<Block>) returns (ss: seq<Runs.Sys>, es: seq<Runs.Event>)
    requires s.inOp && forall n :: n in todo ==> n in s.view && !Commit.InLog(start, n) && n < 0x1_0000_0000 && n < |b|
    requires |s.lh| + |Unlisted(todo, s.lh)| <= Commit.LOGSIZE - 1
    ensures Steps(start, ss, es) && ss[0] == s && Wrote(s, ss[|es|], todo, b)
    decreases |todo|
  {
    if todo == {} {
      ss, es := [s], [];
    } else {
      var n :| n in todo;
      var e := Runs.Write(n, b[n]);
      var t := s.(view := s.view[n := b[n]], lh := if n in s.lh then s.lh else s.lh + [n]);
      OneListed(todo, s.lh, n, t.lh);
      assert Runs.Next(start, s, e, t);
      var ss1, es1 := Writes(start, t, todo - {n}, b);
      ss, es := [s] + ss1, [e] + es1;
      StepsMore(start, s, e, ss1, es1);
      assert ss[|es|] == ss1[|es1|];
    }
  }

  lemma OneListed(todo: set<nat>, lh: seq<Word>, n: Word, lh2: seq<Word>)
    requires n in todo && lh2 == if n in lh then lh else lh + [n]
    ensures |lh2| + |Unlisted(todo - {n as nat}, lh2)| <= |lh| + |Unlisted(todo, lh)|
    ensures n in lh || |Unlisted(todo, lh)| >= 1
  {
    if n in lh {
      assert Unlisted(todo - {n as nat}, lh2) <= Unlisted(todo, lh);
      Bio.SubsetSize(Unlisted(todo - {n as nat}, lh2), Unlisted(todo, lh));
    } else {
      assert n in lh2;
      assert forall m :: m in lh ==> m in lh2;
      assert Unlisted(todo - {n as nat}, lh2) <= Unlisted(todo, lh) - {n as nat};
      assert n in Unlisted(todo, lh);
      Bio.SubsetSize(Unlisted(todo - {n as nat}, lh2), Unlisted(todo, lh) - {n as nat});
    }
  }

  lemma StepsMore(start: nat, s: Runs.Sys, e: Runs.Event, ss: seq<Runs.Sys>, es: seq<Runs.Event>)
    requires Steps(start, ss, es) && Runs.Next(start, s, e, ss[0])
    ensures Steps(start, [s] + ss, [e] + es)
  {
    hide Runs.Next;
    forall j | 0 <= j < |[e] + es| ensures Runs.Next(start, ([s] + ss)[j], ([e] + es)[j], ([s] + ss)[j + 1]) {
      if j > 0 { assert Runs.Next(start, ss[j - 1], es[j - 1], ss[j]); }
    }
  }

  lemma StepsEnd(start: nat, ss: seq<Runs.Sys>, es: seq<Runs.Event>, e: Runs.Event, t: Runs.Sys)
    requires Steps(start, ss, es) && Runs.Next(start, ss[|es|], e, t)
    ensures Steps(start, ss + [t], es + [e])
  {
    hide Runs.Next;
    forall j | 0 <= j < |es + [e]| ensures Runs.Next(start, (ss + [t])[j], (es + [e])[j], (ss + [t])[j + 1]) {
      if j < |es| { assert Runs.Next(start, ss[j], es[j], ss[j + 1]); }
    }
  }

  /** A transaction that takes the blocks from b1 to b2 and fits into the log is an operation of the run: begin_op, one
      write for each block that changes, end_op. Its result joins the history. */
  lemma TransactionRuns(start: nat, s: Runs.Sys, b1: seq<Block>, b2: seq<Block>) returns (ss: seq<Runs.Sys>, es: seq<Runs.Event>)
    requires !s.inOp && Shows(start, s.view, b1) && |b1| == |b2| <= 0x1_0000_0000
    requires forall c :: 0 <= c < |b1| && b2[c] != b1[c] ==> !Commit.InLog(start, c)
    requires var todo := set c | 0 <= c < |b1| && b2[c] != b1[c]; |s.lh| + |Unlisted(todo, s.lh)| <= Commit.LOGSIZE - 1
    ensures Steps(start, ss, es) && ss[0] == s
    ensures var t := ss[|es|];
            !t.inOp && t.disk == s.disk && t.done == s.done && t.hist == s.hist + [t.view] && Shows(start, t.view, b2)
  {
    var todo := set c | 0 <= c < |b1| && b2[c] != b1[c];
    var s1 := s.(inOp := true);
    assert Runs.Next(start, s, Runs.Begin, s1);
    var ss1, es1 := Writes(start, s1, todo, b2);
    var u := ss1[|es1|];
    var t := u.(inOp := false, hist := u.hist + [u.view]);
    assert Runs.Next(start, u, Runs.End, t);
    StepsEnd(start, ss1, es1, Runs.End, t);
    StepsMore(start, s, Runs.Begin, ss1 + [t], es1 + [Runs.End]);
    ss, es := [s] + (ss1 + [t]), [Runs.Begin] + (es1 + [Runs.End]);
  }
}
