/** The redo log (log.c): what each block write leaves on disk, and why a crash between
    any two of them loses or keeps a transaction as a whole. */
module CrashLog {
  import opened Common
  import opened Blocks

  type Disk = seq<Block>

  /** Where the log lives: a header block at `start`, then size-1 data blocks. */
  datatype Layout = Layout(start: nat, size: nat)

  /** One atomic disk write. */
  datatype Write = Write(blockno: nat, data: Block)

  predicate InLog(l: Layout, b: nat) {
    l.start <= b < l.start + l.size
  }

  predicate Within(n: nat, ws: seq<Write>) {
    forall i :: 0 <= i < |ws| ==> ws[i].blockno < n
  }

  predicate Fits(d: Disk, ws: seq<Write>) {
    Within(|d|, ws)
  }

  /** The disk after the writes `ws`, in order. */
  function Replay(d: Disk, ws: seq<Write>): (r: Disk)
    requires Fits(d, ws)
    ensures |r| == |d|
  {
    if ws == [] then d
    else
      var w := ws[|ws| - 1];
      Replay(d, ws[..|ws| - 1])[w.blockno := w.data]
  }

  lemma {:induction false} ReplayAppend(d: Disk, a: seq<Write>, b: seq<Write>)
    requires Fits(d, a) && Fits(d, b)
    ensures Fits(d, a + b)
    ensures Replay(d, a + b) == Replay(Replay(d, a), b)
  {
    if b == [] {
      assert a + b == a;
    } else {
      var b' := b[..|b| - 1];
      ReplayAppend(d, a, b');
      assert (a + b)[..|a + b| - 1] == a + b';
    }
  }

  lemma {:induction false} ReplaySnoc(d: Disk, ws: seq<Write>, k: nat)
    requires k < |ws| && Fits(d, ws[..k]) && ws[k].blockno < |d|
    ensures ws[..k + 1] == ws[..k] + [ws[k]] && Fits(d, ws[..k + 1])
    ensures Replay(d, ws[..k + 1]) == Replay(d, ws[..k])[ws[k].blockno := ws[k].data]
  {
  }

  predicate Touches(ws: seq<Write>, b: nat) {
    exists i :: 0 <= i < |ws| && ws[i].blockno == b
  }

  lemma {:induction false} ReplayFrame(d: Disk, ws: seq<Write>, b: nat)
    requires Fits(d, ws) && b < |d| && !Touches(ws, b)
    ensures Replay(d, ws)[b] == d[b]
  {
    if ws != [] {
      var n := |ws| - 1;
      assert ws[n].blockno != b;
      assert forall i :: 0 <= i < n ==> ws[..n][i] == ws[i];
      ReplayFrame(d, ws[..n], b);
    }
  }

  /** A block that `ws` writes ends the same whatever it held before. */
  lemma {:induction false} ReplayOverwrites(d: Disk, e: Disk, ws: seq<Write>, b: nat)
    requires |d| == |e| && Fits(d, ws) && b < |d|
    requires Touches(ws, b) || d[b] == e[b]
    ensures Replay(d, ws)[b] == Replay(e, ws)[b]
  {
    if ws != [] {
      var n := |ws| - 1;
      if ws[n].blockno != b {
        if Touches(ws, b) {
          var i :| 0 <= i < |ws| && ws[i].blockno == b;
          assert ws[..n][i].blockno == b;
        }
        ReplayOverwrites(d, e, ws[..n], b);
      }
    }
  }

  /** Installing a prefix twice changes nothing: the log can be replayed from the start. */
  lemma {:induction false} ReplayIdempotent(d: Disk, ws: seq<Write>, k: nat)
    requires Fits(d, ws) && k <= |ws|
    ensures Fits(d, ws[..k])
    ensures Replay(Replay(d, ws[..k]), ws) == Replay(d, ws)
  {
    var e := Replay(d, ws[..k]);
    forall b: nat | b < |d| ensures Replay(e, ws)[b] == Replay(d, ws)[b] {
      if !Touches(ws, b) {
        assert !Touches(ws[..k], b);
        ReplayFrame(d, ws[..k], b);
      }
      ReplayOverwrites(e, d, ws, b);
    }
  }

  // ---------- the header block ----------

  function HeaderN(h: Block): nat {
    GetWord(h, 0)
  }

  function HeaderBlocks(h: Block): seq<uint32>
    requires HeaderN(h) < WORDS
  {
    seq(HeaderN(h), i requires 0 <= i < HeaderN(h) => GetWord(h, i + 1))
  }

  /** What write_head leaves in the header block: the count and the entries, the rest as it was. */
  function PutHeader(h: Block, bs: seq<uint32>): (r: Block)
    requires |bs| < WORDS
    ensures HeaderN(r) == |bs| && HeaderBlocks(r) == bs
  {
    PutEntries(PutWord(h, 0, |bs|), bs)
  }

  function PutEntries(h: Block, bs: seq<uint32>): (r: Block)
    requires |bs| < WORDS
    ensures forall i: nat :: i < |bs| ==> GetWord(r, i + 1) == bs[i]
    ensures GetWord(r, 0) == GetWord(h, 0)
  {
    if bs == [] then h
    else PutWord(PutEntries(h, bs[..|bs| - 1]), |bs|, bs[|bs| - 1])
  }

  // ---------- what a disk means ----------

  /** A disk the kernel can boot from: the header names only home blocks. */
  predicate WellFormed(l: Layout, d: Disk) {
    && 1 <= l.size && l.start + l.size <= |d|
    && HeaderN(d[l.start]) <= LOGSIZE
    && HeaderN(d[l.start]) <= l.size - 1
    && forall i :: 0 <= i < HeaderN(d[l.start]) ==> var b := HeaderBlocks(d[l.start])[i]; b < |d| && !InLog(l, b)
  }

  /** The committed but possibly not yet installed writes that the header describes. */
  function Logged(l: Layout, d: Disk): (ws: seq<Write>)
    requires WellFormed(l, d)
    ensures Fits(d, ws) && |ws| == HeaderN(d[l.start])
    ensures forall i :: 0 <= i < |ws| ==> !InLog(l, ws[i].blockno)
  {
    var bs := HeaderBlocks(d[l.start]);
    seq(|bs|, i requires 0 <= i < |bs| => Write(bs[i], d[l.start + 1 + i]))
  }

  /** The file system a disk stands for: its home blocks with the logged writes applied. */
  function View(l: Layout, d: Disk): Disk
    requires WellFormed(l, d)
  {
    Replay(d, Logged(l, d))
  }

  predicate SameHome(l: Layout, d: Disk, e: Disk) {
    |d| == |e| && forall b: nat :: b < |d| && !InLog(l, b) ==> d[b] == e[b]
  }

  /** A transaction: the blocks log_write recorded, with their contents at commit. */
  predicate Legal(l: Layout, d: Disk, u: seq<Write>) {
    && |u| <= LOGSIZE && |u| <= l.size - 1 && |d| <= 0x1_0000_0000
    && forall i :: 0 <= i < |u| ==> u[i].blockno < |d| && !InLog(l, u[i].blockno)
  }

  function Numbers(u: seq<Write>): (bs: seq<uint32>)
    requires forall i :: 0 <= i < |u| ==> u[i].blockno < 0x1_0000_0000
    ensures |bs| == |u|
  {
    seq(|u|, i requires 0 <= i < |u| => u[i].blockno)
  }

  function LogWrites(l: Layout, u: seq<Write>): (ws: seq<Write>)
    ensures |ws| == |u|
  {
    seq(|u|, i requires 0 <= i < |u| => Write(l.start + 1 + i, u[i].data))
  }

  /** The writes commit() issues, in order: log blocks, header, home blocks, empty header. */
  function CommitWrites(l: Layout, d: Disk, u: seq<Write>): (ws: seq<Write>)
    requires WellFormed(l, d) && Legal(l, d, u)
    ensures Fits(d, ws)
    ensures |ws| == if u == [] then 0 else 2 * |u| + 2
  {
    if u == [] then []
    else
      var h := PutHeader(d[l.start], Numbers(u));
      LogWrites(l, u) + [Write(l.start, h)] + u + [Write(l.start, PutWord(h, 0, 0))]
  }

  /** The writes recover_from_log() issues: home blocks, then the empty header. */
  function RecoverWrites(l: Layout, d: Disk): (ws: seq<Write>)
    requires WellFormed(l, d)
    ensures Fits(d, ws) && |ws| == HeaderN(d[l.start]) + 1
  {
    Logged(l, d) + [Write(l.start, PutWord(d[l.start], 0, 0))]
  }

  // ---------- a crash during recovery ----------

  /** Two disks that agree on the log region describe the same logged writes. */
  lemma {:induction false} SameLogged(l: Layout, d: Disk, e: Disk)
    requires WellFormed(l, d) && |d| == |e|
    requires forall b: nat :: b < |d| && InLog(l, b) ==> e[b] == d[b]
    ensures WellFormed(l, e) && Logged(l, e) == Logged(l, d)
  {
  }

  /** An empty header: the view is the disk itself. */
  lemma {:induction false} EmptyLogView(l: Layout, d: Disk)
    requires 1 <= l.size && l.start + l.size <= |d| && HeaderN(d[l.start]) == 0
    ensures WellFormed(l, d) && View(l, d) == d
  {
  }

  /** Recovery may stop after any of its writes; what the disk stands for is unchanged. */
  lemma {:induction false} RecoveryKeepsView(l: Layout, d: Disk, k: nat)
    requires WellFormed(l, d) && k <= |RecoverWrites(l, d)|
    ensures Fits(d, RecoverWrites(l, d)[..k])
    ensures var e := Replay(d, RecoverWrites(l, d)[..k]);
      && WellFormed(l, e) && SameHome(l, View(l, e), View(l, d))
      && (k == |RecoverWrites(l, d)| ==> HeaderN(e[l.start]) == 0)
  {
    var ws, rw := Logged(l, d), RecoverWrites(l, d);
    if k <= |ws| {
      assert rw[..k] == ws[..k];
      var e := Replay(d, ws[..k]);
      forall b: nat | b < |d| && InLog(l, b) ensures e[b] == d[b] {
        assert !Touches(ws[..k], b);
        ReplayFrame(d, ws[..k], b);
      }
      SameLogged(l, d, e);
      ReplayIdempotent(d, ws, k);
    } else {
      assert rw[..k] == rw && rw[..|rw| - 1] == ws;
      var e := Replay(d, rw);
      assert InLog(l, l.start);
      EmptyLogView(l, e);
    }
  }

  // ---------- a crash during commit ----------

  /** Before the header write, only the log region has changed and the header is still empty. */
  lemma {:induction false} CommitBeforeHeader(l: Layout, d: Disk, u: seq<Write>, k: nat)
    requires WellFormed(l, d) && HeaderN(d[l.start]) == 0 && Legal(l, d, u) && k <= |u|
    ensures Fits(d, LogWrites(l, u)[..k])
    ensures var e := Replay(d, LogWrites(l, u)[..k]);
      && WellFormed(l, e) && HeaderN(e[l.start]) == 0 && SameHome(l, View(l, e), View(l, d))
      && e[l.start] == d[l.start]
      && forall i :: 0 <= i < k ==> e[l.start + 1 + i] == u[i].data
  {
    var ws := LogWrites(l, u)[..k];
    var e := Replay(d, ws);
    assert !Touches(ws, l.start);
    ReplayFrame(d, ws, l.start);
    forall b: nat | b < |d| && !InLog(l, b) ensures e[b] == d[b] {
      assert !Touches(ws, b);
      ReplayFrame(d, ws, b);
    }
    LogBlocksWritten(l, d, u, k);
    EmptyLogView(l, d);
    EmptyLogView(l, e);
  }

  lemma {:induction false} LogBlocksWritten(l: Layout, d: Disk, u: seq<Write>, k: nat)
    requires k <= |u| <= l.size - 1 && l.start + l.size <= |d|
    ensures Fits(d, LogWrites(l, u)[..k])
    ensures forall i :: 0 <= i < k ==> Replay(d, LogWrites(l, u)[..k])[l.start + 1 + i] == u[i].data
  {
    if k > 0 {
      LogBlocksWritten(l, d, u, k - 1);
      assert LogWrites(l, u)[..k][..k - 1] == LogWrites(l, u)[..k - 1];
    }
  }

  /** A disk whose header and log blocks were written from u describes exactly u. */
  lemma {:induction false} LoggedIs(l: Layout, e: Disk, h: Block, u: seq<Write>)
    requires 1 <= l.size && l.start + l.size <= |e| && Legal(l, e, u)
    requires e[l.start] == PutHeader(h, Numbers(u))
    requires forall i :: 0 <= i < |u| ==> e[l.start + 1 + i] == u[i].data
    ensures WellFormed(l, e) && Logged(l, e) == u
  {
    assert HeaderBlocks(e[l.start]) == Numbers(u);
  }

  /** Once the header is written, the log region describes exactly the transaction. */
  lemma {:induction false} CommitHeader(l: Layout, d: Disk, u: seq<Write>)
    requires WellFormed(l, d) && HeaderN(d[l.start]) == 0 && Legal(l, d, u)
    ensures Fits(d, LogWrites(l, u))
    ensures var e := Replay(d, LogWrites(l, u))[l.start := PutHeader(d[l.start], Numbers(u))];
      && WellFormed(l, e) && Logged(l, e) == u && SameHome(l, e, d)
  {
    var ws := LogWrites(l, u);
    assert ws[..|u|] == ws;
    CommitBeforeHeader(l, d, u, |u|);
    var d1 := Replay(d, ws);
    EmptyLogView(l, d);
    EmptyLogView(l, d1);
    assert InLog(l, l.start);
    LoggedIs(l, d1[l.start := PutHeader(d[l.start], Numbers(u))], d[l.start], u);
  }

  lemma {:induction false} ReplaySameHome(l: Layout, d: Disk, e: Disk, ws: seq<Write>)
    requires SameHome(l, d, e) && Fits(d, ws)
    ensures SameHome(l, Replay(d, ws), Replay(e, ws))
  {
    forall b: nat | b < |d| && !InLog(l, b) ensures Replay(d, ws)[b] == Replay(e, ws)[b] {
      ReplayOverwrites(d, e, ws, b);
    }
  }

  /** Commit is: write the log and the header, then do what recovery would do. */
  lemma {:induction false} CommitIsLogThenRecover(l: Layout, d: Disk, u: seq<Write>)
    requires WellFormed(l, d) && HeaderN(d[l.start]) == 0 && Legal(l, d, u) && u != []
    ensures Fits(d, LogWrites(l, u))
    ensures var d1 := Replay(d, LogWrites(l, u))[l.start := PutHeader(d[l.start], Numbers(u))];
      && WellFormed(l, d1) && SameHome(l, View(l, d1), Replay(View(l, d), u))
      && var head := LogWrites(l, u) + [Write(l.start, PutHeader(d[l.start], Numbers(u)))];
         && Fits(d, head) && Replay(d, head) == d1
         && CommitWrites(l, d, u) == head + RecoverWrites(l, d1)
  {
    hide HeaderBlocks, PutHeader, GetWord, SameHome, Replay;
    var lw, h := LogWrites(l, u), PutHeader(d[l.start], Numbers(u));
    CommitHeader(l, d, u);
    EmptyLogView(l, d);
    var d1 := Replay(d, lw)[l.start := h];
    var head := lw + [Write(l.start, h)];
    assert head[..|lw|] == lw && head[..|lw| + 1] == head;
    ReplaySnoc(d, head, |lw|);
    ReplaySameHome(l, d1, d, u);
  }

  /** From the header write on, recovery yields the transaction in full. */
  lemma {:induction false} CommitAfterHeader(l: Layout, d: Disk, u: seq<Write>, k: nat)
    requires WellFormed(l, d) && HeaderN(d[l.start]) == 0 && Legal(l, d, u)
    requires |u| < k <= |CommitWrites(l, d, u)|
    ensures var e := Replay(d, CommitWrites(l, d, u)[..k]);
      && WellFormed(l, e) && SameHome(l, View(l, e), Replay(View(l, d), u))
      && (k == |CommitWrites(l, d, u)| ==> HeaderN(e[l.start]) == 0)
  {
    CommitIsLogThenRecover(l, d, u);
    RecoveryAfter(l, d, LogWrites(l, u) + [Write(l.start, PutHeader(d[l.start], Numbers(u)))], k);
  }

  lemma {:induction false} RecoveryAfter(l: Layout, d: Disk, head: seq<Write>, k: nat)
    requires Fits(d, head) && WellFormed(l, Replay(d, head))
    requires |head| <= k <= |head + RecoverWrites(l, Replay(d, head))|
    ensures var ws := head + RecoverWrites(l, Replay(d, head));
      && Fits(d, ws)
      && var e := Replay(d, ws[..k]);
         && WellFormed(l, e) && SameHome(l, View(l, e), View(l, Replay(d, head)))
         && (k == |ws| ==> HeaderN(e[l.start]) == 0)
  {
    var d1 := Replay(d, head);
    var rw, j := RecoverWrites(l, d1), k - |head|;
    assert (head + rw)[..k] == head + rw[..j];
    RecoveryKeepsView(l, d1, j);
    ReplayAppend(d, head, rw[..j]);
  }

  /** The disk after a whole commit, piece by piece. */
  lemma {:induction false} CommitInPieces(l: Layout, d: Disk, u: seq<Write>)
    requires WellFormed(l, d) && HeaderN(d[l.start]) == 0 && Legal(l, d, u) && u != []
    ensures Fits(d, LogWrites(l, u))
    ensures var h := PutHeader(d[l.start], Numbers(u));
      var d1 := Replay(d, LogWrites(l, u))[l.start := h];
      var d2 := Replay(d1, u);
      && d2[l.start] == h
      && Replay(d, CommitWrites(l, d, u)) == d2[l.start := PutWord(h, 0, 0)]
      && SameHome(l, d2, Replay(d, u))
  {
    CommitHeader(l, d, u);
    CommitIsLogThenRecover(l, d, u);
    var h := PutHeader(d[l.start], Numbers(u));
    var d1 := Replay(d, LogWrites(l, u))[l.start := h];
    var rw := RecoverWrites(l, d1);
    assert InLog(l, l.start) && !Touches(u, l.start);
    ReplayFrame(d1, u, l.start);
    ReplayAppend(d, LogWrites(l, u) + [Write(l.start, h)], rw);
    assert rw[..|rw| - 1] == u;
    ReplaySameHome(l, d1, d, u);
  }

  /** When no block is written twice, each ends with its own write. */
  lemma {:induction false} ReplayDistinct(d: Disk, u: seq<Write>, i: nat)
    requires Fits(d, u) && i < |u|
    requires forall j, k :: 0 <= j < k < |u| ==> u[j].blockno != u[k].blockno
    ensures Replay(d, u)[u[i].blockno] == u[i].data
  {
    if i < |u| - 1 {
      ReplayDistinct(d, u[..|u| - 1], i);
    }
  }

  // ---------- whole runs ----------

  /** What can happen to the disk: a group of operations commits, or power fails after
      `writes` of its disk writes; the same for recovery at boot. */
  datatype Event =
    | Commit(txn: seq<Write>)
    | CrashInCommit(txn: seq<Write>, writes: nat)
    | Recover
    | CrashInRecovery(writes: nat)

  datatype System = System(disk: Disk, up: bool)

  predicate Inv(l: Layout, s: System) {
    WellFormed(l, s.disk) && (s.up ==> HeaderN(s.disk[l.start]) == 0)
  }

  predicate Enabled(l: Layout, s: System, e: Event)
    requires Inv(l, s)
  {
    match e
    case Commit(u) => s.up && Legal(l, s.disk, u)
    case CrashInCommit(u, k) => s.up && Legal(l, s.disk, u) && k <= |CommitWrites(l, s.disk, u)|
    case Recover => !s.up
    case CrashInRecovery(k) => !s.up && k <= |RecoverWrites(l, s.disk)|
  }

  function Next(l: Layout, s: System, e: Event): System
    requires Inv(l, s) && Enabled(l, s, e)
  {
    match e
    case Commit(u) => System(Replay(s.disk, CommitWrites(l, s.disk, u)), true)
    case CrashInCommit(u, k) => System(Replay(s.disk, CommitWrites(l, s.disk, u)[..k]), false)
    case Recover => System(Replay(s.disk, RecoverWrites(l, s.disk)), true)
    case CrashInRecovery(k) => System(Replay(s.disk, RecoverWrites(l, s.disk)[..k]), false)
  }

  /** Did the committing header write of this event reach the disk? */
  predicate Committed(e: Event) {
    e.Commit? || (e.CrashInCommit? && e.writes > |e.txn|)
  }

  predicate EventWithin(n: nat, e: Event) {
    (e.Commit? || e.CrashInCommit?) ==> Within(n, e.txn)
  }

  predicate EventsWithin(n: nat, es: seq<Event>) {
    forall i :: 0 <= i < |es| ==> EventWithin(n, es[i])
  }

  /** The specification: a transaction happens entirely or not at all. */
  function Ideal(home: Disk, e: Event): (r: Disk)
    requires EventWithin(|home|, e)
    ensures |r| == |home|
  {
    if Committed(e) then Replay(home, e.txn) else home
  }

  lemma {:induction false} StepIsAtomic(l: Layout, s: System, e: Event)
    requires Inv(l, s) && Enabled(l, s, e)
    ensures Inv(l, Next(l, s, e))
    ensures SameHome(l, View(l, Next(l, s, e).disk), Ideal(View(l, s.disk), e))
  {
    match e
    case Commit(u) =>
      var cw := CommitWrites(l, s.disk, u);
      assert cw[..|cw|] == cw;
      CommitStep(l, s.disk, u, |cw|);
    case CrashInCommit(u, k) => CommitStep(l, s.disk, u, k);
    case Recover =>
      var rw := RecoverWrites(l, s.disk);
      assert rw[..|rw|] == rw;
      RecoveryKeepsView(l, s.disk, |rw|);
    case CrashInRecovery(k) => RecoveryKeepsView(l, s.disk, k);
  }

  lemma {:induction false} CommitPrefix(l: Layout, d: Disk, u: seq<Write>, k: nat)
    requires WellFormed(l, d) && Legal(l, d, u) && u != [] && k <= |u|
    ensures CommitWrites(l, d, u)[..k] == LogWrites(l, u)[..k]
  {
  }

  lemma {:induction false} CommitStep(l: Layout, d: Disk, u: seq<Write>, k: nat)
    requires WellFormed(l, d) && HeaderN(d[l.start]) == 0 && Legal(l, d, u) && k <= |CommitWrites(l, d, u)|
    ensures var e := Replay(d, CommitWrites(l, d, u)[..k]);
      && WellFormed(l, e)
      && SameHome(l, View(l, e), if k > |u| then Replay(View(l, d), u) else View(l, d))
      && (k == |CommitWrites(l, d, u)| ==> HeaderN(e[l.start]) == 0)
  {
    if u == [] {
      EmptyLogView(l, d);
    } else if k > |u| {
      CommitAfterHeader(l, d, u, k);
    } else {
      CommitPrefix(l, d, u, k);
      CommitBeforeHeader(l, d, u, k);
    }
  }

  /** A history from s to t in which every event is enabled where it happens. */
  ghost predicate Run(l: Layout, s: System, es: seq<Event>, t: System)
    decreases |es|
  {
    Inv(l, s) &&
    if es == [] then t == s
    else Enabled(l, s, es[0]) && Run(l, Next(l, s, es[0]), es[1..], t)
  }

  /** Only the transactions whose header write reached the disk, in order. */
  function IdealRun(home: Disk, es: seq<Event>): (r: Disk)
    requires EventsWithin(|home|, es)
    ensures |r| == |home|
    decreases |es|
  {
    if es == [] then home else IdealRun(Ideal(home, es[0]), es[1..])
  }

  lemma {:induction false} IdealRunSameHome(l: Layout, d: Disk, e: Disk, es: seq<Event>)
    requires SameHome(l, d, e)
    requires EventsWithin(|d|, es)
    ensures SameHome(l, IdealRun(d, es), IdealRun(e, es))
    decreases |es|
  {
    if es != [] {
      if Committed(es[0]) {
        ReplaySameHome(l, d, e, es[0].txn);
      }
      IdealRunSameHome(l, Ideal(d, es[0]), Ideal(e, es[0]), es[1..]);
    }
  }

  lemma {:induction false} RunTxnsFit(l: Layout, s: System, es: seq<Event>, t: System)
    requires Run(l, s, es, t)
    ensures EventsWithin(|s.disk|, es)
    ensures |t.disk| == |s.disk| && Inv(l, t)
    decreases |es|
  {
    if es != [] {
      RunTxnsFit(l, Next(l, s, es[0]), es[1..], t);
      assert forall i :: 0 < i < |es| ==> es[i] == es[1..][i - 1];
    }
  }

  /** Crash atomicity over whole runs: whatever the mix of commits, crashes inside commits and
      crashes inside recovery, the final disk stands for exactly the transactions whose
      committing header write reached it; and once the system is up its home blocks are that. */
  lemma {:induction false} CrashAtomicity(l: Layout, s: System, es: seq<Event>, t: System)
    requires Run(l, s, es, t)
    ensures Inv(l, t)
    ensures EventsWithin(|s.disk|, es)
    ensures SameHome(l, View(l, t.disk), IdealRun(View(l, s.disk), es))
    ensures t.up ==> SameHome(l, t.disk, IdealRun(View(l, s.disk), es))
    decreases |es|
  {
    RunTxnsFit(l, s, es, t);
    if es != [] {
      var s1 := Next(l, s, es[0]);
      StepIsAtomic(l, s, es[0]);
      CrashAtomicity(l, s1, es[1..], t);
      IdealRunSameHome(l, View(l, s1.disk), Ideal(View(l, s.disk), es[0]), es[1..]);
    }
    if t.up {
      EmptyLogView(l, t.disk);
    }
  }
}
