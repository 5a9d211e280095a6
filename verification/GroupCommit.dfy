/** begin_op, log_write and end_op (log.c) in every interleaving of any number of threads.  A step is
    one critical section of log.lock, or one unlocked piece between two of them; log_write's two
    tests are made without the lock, so they are a step of their own. */
module GroupCommit {
  import opened Blocks

  /** Where a thread is.  In an operation: the blocks it has added to the log, and how many commits
      had happened when it began. */
  datatype Phase =
    | Out
    | Asleep
    | InOp(spent: nat, began: nat)
    | Checked(block: nat, spent: nat, began: nat)
    | Committing
    | Cleared

  datatype Trouble = Fine | TooBig | OutsideOfTrans | LogCommitting

  /** The global log, its threads, how many commits are over, and whether the kernel panicked. */
  datatype State = State(size: int, outstanding: nat, committing: bool, blocks: seq<nat>,
                         threads: seq<Phase>, commits: nat, trouble: Trouble)

  datatype Event =
    | Begin(t: nat)
    | Check(t: nat, block: nat)
    | Append(t: nat)
    | End(t: nat)
    | Commit(t: nat)
    | Reset(t: nat)

  function Init(size: int, k: nat): State {
    State(size, 0, false, [], seq(k, i => Out), 0, Fine)
  }

  predicate Busy(p: Phase) { p.InOp? || p.Checked? }

  predicate AtCommit(p: Phase) { p.Committing? || p.Cleared? }

  /** wakeup(&log) */
  function Wake(ts: seq<Phase>): (r: seq<Phase>)
    ensures |r| == |ts|
  {
    seq(|ts|, i requires 0 <= i < |ts| => if ts[i].Asleep? then Out else ts[i])
  }

  /** begin_op's test under the lock. */
  predicate MustWait(s: State) {
    s.committing || |s.blocks| + (s.outstanding + 1) * MAXOPBLOCKS > LOGSIZE
  }

  /** Which steps a thread can take.  The last conjunct of Append is what the clients promise: an
      operation adds at most MAXOPBLOCKS blocks. */
  predicate Enabled(s: State, e: Event) {
    s.trouble.Fine? && e.t < |s.threads| && var p := s.threads[e.t];
    match e {
      case Begin(_) => p.Out?
      case Check(_, _) => p.InOp?
      case Append(_) => p.Checked? && (p.block in s.blocks || p.spent < MAXOPBLOCKS)
      case End(_) => p.InOp?
      case Commit(_) => p.Committing?
      case Reset(_) => p.Cleared?
    }
  }

  function At(s: State, t: nat, p: Phase): State
    requires t < |s.threads|
  {
    s.(threads := s.threads[t := p])
  }

  /** One round of begin_op's loop; a thread that must wait sleeps until a wakeup puts it back. */
  function DoBegin(s: State, t: nat): State
    requires t < |s.threads|
  {
    if MustWait(s) then At(s, t, Asleep)
    else At(s, t, InOp(0, s.commits)).(outstanding := s.outstanding + 1)
  }

  /** log_write's two tests. */
  function DoCheck(s: State, t: nat, block: nat): State
    requires t < |s.threads| && s.threads[t].InOp?
  {
    if |s.blocks| >= LOGSIZE || |s.blocks| >= s.size - 1 then s.(trouble := TooBig)
    else if s.outstanding < 1 then s.(trouble := OutsideOfTrans)
    else At(s, t, Checked(block, s.threads[t].spent, s.threads[t].began))
  }

  /** log_write's critical section, with absorption. */
  function DoAppend(s: State, t: nat): State
    requires t < |s.threads| && s.threads[t].Checked?
  {
    var p := s.threads[t];
    if p.block in s.blocks then At(s, t, InOp(p.spent, p.began))
    else At(s, t, InOp(p.spent + 1, p.began)).(blocks := s.blocks + [p.block])
  }

  /** end_op's first critical section. */
  function DoEnd(s: State, t: nat): State
    requires t < |s.threads|
  {
    var left := if s.outstanding == 0 then 0 else s.outstanding - 1;
    if s.committing then s.(trouble := LogCommitting)
    else if left == 0 then At(s, t, Committing).(outstanding := 0, committing := true)
    else s.(outstanding := left, threads := Wake(s.threads[t := Out]))
  }

  function Next(s: State, e: Event): State
    requires Enabled(s, e)
  {
    match e {
      case Begin(t) => DoBegin(s, t)
      case Check(t, block) => DoCheck(s, t, block)
      case Append(t) => DoAppend(s, t)
      case End(t) => DoEnd(s, t)
      case Commit(t) => At(s, t, Cleared).(blocks := [])
      case Reset(t) => s.(committing := false, threads := Wake(s.threads[t := Out]), commits := s.commits + 1)
    }
  }

  ghost predicate Run(s: State, es: seq<Event>, t: State)
    decreases |es|
  {
    if es == [] then s == t else Enabled(s, es[0]) && Run(Next(s, es[0]), es[1..], t)
  }

  // ---------- sums over the threads ----------

  function Sum(ts: seq<Phase>, w: Phase -> nat): nat {
    if ts == [] then 0 else w(ts[0]) + Sum(ts[1..], w)
  }

  lemma {:induction false} SumAt(ts: seq<Phase>, w: Phase -> nat, t: nat, p: Phase)
    requires t < |ts|
    ensures Sum(ts[t := p], w) + w(ts[t]) == Sum(ts, w) + w(p)
  {
    if t == 0 {
      assert ts[t := p][1..] == ts[1..];
    } else {
      assert ts[t := p][1..] == ts[1..][t - 1 := p];
      SumAt(ts[1..], w, t - 1, p);
    }
  }

  lemma {:induction false} SumWake(ts: seq<Phase>, w: Phase -> nat)
    requires w(Asleep) == w(Out)
    ensures Sum(Wake(ts), w) == Sum(ts, w)
  {
    if ts != [] {
      assert Wake(ts)[1..] == Wake(ts[1..]);
      SumWake(ts[1..], w);
    }
  }

  lemma {:induction false} SumHas(ts: seq<Phase>, w: Phase -> nat, t: nat)
    requires t < |ts|
    ensures w(ts[t]) <= Sum(ts, w)
  {
    if t > 0 { SumHas(ts[1..], w, t - 1); }
  }

  lemma {:induction false} SumHasTwo(ts: seq<Phase>, w: Phase -> nat, t: nat, u: nat)
    requires t < u < |ts|
    ensures w(ts[t]) + w(ts[u]) <= Sum(ts, w)
  {
    if t > 0 {
      SumHasTwo(ts[1..], w, t - 1, u - 1);
    } else {
      SumHas(ts[1..], w, u - 1);
    }
  }

  lemma {:induction false} SumZero(ts: seq<Phase>, w: Phase -> nat)
    requires forall i :: 0 <= i < |ts| ==> w(ts[i]) == 0
    ensures Sum(ts, w) == 0
  {
    if ts != [] { SumZero(ts[1..], w); }
  }

  /** Operations in progress, and committers. */
  function Ops(ts: seq<Phase>): nat { Sum(ts, p => if Busy(p) then 1 else 0) }

  function Committers(ts: seq<Phase>): nat { Sum(ts, p => if AtCommit(p) then 1 else 0) }

  /** What the operations in progress may still add to the log. */
  function Unspent(ts: seq<Phase>): nat { Sum(ts, p => Rest(p)) }

  function Rest(p: Phase): nat {
    if Busy(p) && p.spent <= MAXOPBLOCKS then MAXOPBLOCKS - p.spent else 0
  }

  lemma {:induction false} UnspentBound(ts: seq<Phase>)
    ensures Unspent(ts) <= MAXOPBLOCKS * Ops(ts)
  {
    if ts != [] { UnspentBound(ts[1..]); }
  }

  /** What moving one thread does to the three sums. */
  lemma {:induction false} Move(ts: seq<Phase>, t: nat, p: Phase)
    requires t < |ts|
    ensures Ops(ts[t := p]) + (if Busy(ts[t]) then 1 else 0) == Ops(ts) + (if Busy(p) then 1 else 0)
    ensures Committers(ts[t := p]) + (if AtCommit(ts[t]) then 1 else 0) ==
      Committers(ts) + (if AtCommit(p) then 1 else 0)
    ensures Unspent(ts[t := p]) + Rest(ts[t]) == Unspent(ts) + Rest(p)
    ensures Busy(ts[t]) ==> Ops(ts) >= 1
    ensures AtCommit(ts[t]) ==> Committers(ts) >= 1
    ensures Rest(ts[t]) <= Unspent(ts)
  {
    SumAt(ts, q => if Busy(q) then 1 else 0, t, p);
    SumAt(ts, q => if AtCommit(q) then 1 else 0, t, p);
    SumAt(ts, q => Rest(q), t, p);
    SumHas(ts, q => if Busy(q) then 1 else 0, t);
    SumHas(ts, q => if AtCommit(q) then 1 else 0, t);
    SumHas(ts, q => Rest(q), t);
  }

  lemma {:induction false} Woken(ts: seq<Phase>)
    ensures Ops(Wake(ts)) == Ops(ts) && Committers(Wake(ts)) == Committers(ts) && Unspent(Wake(ts)) == Unspent(ts)
  {
    SumWake(ts, q => if Busy(q) then 1 else 0);
    SumWake(ts, q => if AtCommit(q) then 1 else 0);
    SumWake(ts, q => Rest(q));
  }

  // ---------- the invariant ----------

  /** Reservations: what is in the log and what may still be added fit. */
  predicate Reserved(s: State) {
    && s.outstanding == Ops(s.threads)
    && |s.blocks| + Unspent(s.threads) <= LOGSIZE
  }

  /** One thread commits at a time, and only with no operation in progress. */
  predicate CommitsAlone(s: State) {
    && Committers(s.threads) == (if s.committing then 1 else 0)
    && (s.committing ==> s.outstanding == 0)
    && (!s.committing && s.outstanding == 0 ==> s.blocks == [])
  }

  /** An operation belongs to the transaction it began in; a sleeper has a reason to sleep. */
  predicate PhaseOk(s: State, p: Phase) {
    && (Busy(p) ==> p.began == s.commits && p.spent <= MAXOPBLOCKS)
    && (p.Asleep? ==> MustWait(s))
    && (p.Cleared? ==> s.blocks == [])
  }

  predicate Phases(s: State) {
    forall i :: 0 <= i < |s.threads| ==> PhaseOk(s, s.threads[i])
  }

  /** Absorption: no block is logged twice. */
  predicate LoggedOnce(blocks: seq<nat>) {
    forall i, j :: 0 <= i < j < |blocks| ==> blocks[i] != blocks[j]
  }

  predicate TroubleOk(s: State) {
    s.trouble.Fine? || (s.trouble.TooBig? && (s.size <= LOGSIZE || |s.blocks| == LOGSIZE))
  }

  predicate Inv(s: State) {
    Reserved(s) && CommitsAlone(s) && Phases(s) && LoggedOnce(s.blocks) && TroubleOk(s)
  }

  lemma {:induction false} InitInv(size: int, k: nat)
    ensures Inv(Init(size, k))
  {
    SumZero(Init(size, k).threads, q => if Busy(q) then 1 else 0);
    SumZero(Init(size, k).threads, q => if AtCommit(q) then 1 else 0);
    SumZero(Init(size, k).threads, q => Rest(q));
  }

  lemma {:induction false} StepInv(s: State, e: Event)
    requires Inv(s) && Enabled(s, e)
    ensures Inv(Next(s, e)) && Next(s, e).size == s.size
  {
    var p := s.threads[e.t];
    assert PhaseOk(s, p);
    match e {
      case Begin(t) => StepBegin(s, t);
      case Check(t, block) => StepCheck(s, t, block);
      case Append(t) => StepAppend(s, t);
      case End(t) => StepEnd(s, t);
      case Commit(t) => StepCommit(s, t);
      case Reset(t) => StepReset(s, t);
    }
  }

  lemma {:induction false} StepBegin(s: State, t: nat)
    requires Inv(s) && Enabled(s, Begin(t))
    ensures Inv(DoBegin(s, t))
  {
    Move(s.threads, t, Asleep);
    Move(s.threads, t, InOp(0, s.commits));
    UnspentBound(s.threads);
  }

  lemma {:induction false} StepCheck(s: State, t: nat, block: nat)
    requires Inv(s) && Enabled(s, Check(t, block))
    ensures Inv(DoCheck(s, t, block))
  {
    var p := s.threads[t];
    assert PhaseOk(s, p);
    Move(s.threads, t, Checked(block, p.spent, p.began));
  }

  lemma {:induction false} StepAppend(s: State, t: nat)
    requires Inv(s) && Enabled(s, Append(t))
    ensures Inv(DoAppend(s, t))
  {
    var p := s.threads[t];
    assert PhaseOk(s, p);
    Move(s.threads, t, InOp(p.spent, p.began));
    Move(s.threads, t, InOp(p.spent + 1, p.began));
    NoneCommitting(s.threads);
  }

  lemma {:induction false} StepEnd(s: State, t: nat)
    requires Inv(s) && Enabled(s, End(t))
    ensures Inv(DoEnd(s, t)) && DoEnd(s, t).trouble.Fine?
  {
    Move(s.threads, t, Committing);
    Move(s.threads, t, Out);
    Woken(s.threads[t := Out]);
    if s.outstanding == 1 {
      NoneBusy(s.threads[t := Committing]);
    }
  }

  lemma {:induction false} StepCommit(s: State, t: nat)
    requires Inv(s) && Enabled(s, Commit(t))
    ensures Inv(At(s, t, Cleared).(blocks := []))
  {
    Move(s.threads, t, Cleared);
  }

  lemma {:induction false} StepReset(s: State, t: nat)
    requires Inv(s) && Enabled(s, Reset(t))
    ensures Inv(Next(s, Reset(t)))
  {
    assert PhaseOk(s, s.threads[t]);
    Move(s.threads, t, Out);
    Woken(s.threads[t := Out]);
    NoneBusy(s.threads);
    NoneCommitting(s.threads[t := Out]);
  }

  lemma {:induction false} NoneBusy(ts: seq<Phase>)
    requires Ops(ts) == 0
    ensures forall i :: 0 <= i < |ts| ==> !Busy(ts[i])
  {
    forall i | 0 <= i < |ts| ensures !Busy(ts[i]) {
      SumHas(ts, q => if Busy(q) then 1 else 0, i);
    }
  }

  lemma {:induction false} NoneCommitting(ts: seq<Phase>)
    requires Committers(ts) == 0
    ensures forall i :: 0 <= i < |ts| ==> !AtCommit(ts[i])
  {
    forall i | 0 <= i < |ts| ensures !AtCommit(ts[i]) {
      SumHas(ts, q => if AtCommit(q) then 1 else 0, i);
    }
  }

  lemma {:induction false} RunInv(s: State, es: seq<Event>, t: State)
    requires Inv(s) && Run(s, es, t)
    ensures Inv(t) && t.size == s.size
    decreases |es|
  {
    if es != [] {
      StepInv(s, es[0]);
      RunInv(Next(s, es[0]), es[1..], t);
    }
  }

  // ---------- what the discipline gives ----------

  /** In every reachable state: outstanding counts the operations in progress; a commit runs alone;
      every operation is in the transaction it began in; no block is logged twice; the log and the
      reservations fit; and the panic of end_op and the second panic of log_write do not happen. */
  lemma {:induction false} Discipline(size: int, k: nat, es: seq<Event>, t: State)
    requires Run(Init(size, k), es, t)
    ensures t.outstanding == Ops(t.threads)
    ensures forall i :: 0 <= i < |t.threads| && AtCommit(t.threads[i]) ==> t.committing && NoOperation(t)
    ensures forall i, j :: 0 <= i < j < |t.threads| ==> !(AtCommit(t.threads[i]) && AtCommit(t.threads[j]))
    ensures forall i :: 0 <= i < |t.threads| && Busy(t.threads[i]) ==> t.threads[i].began == t.commits
    ensures LoggedOnce(t.blocks) && |t.blocks| + Unspent(t.threads) <= LOGSIZE
    ensures t.trouble != LogCommitting && t.trouble != OutsideOfTrans
  {
    InitInv(size, k);
    RunInv(Init(size, k), es, t);
    forall i | 0 <= i < |t.threads| && AtCommit(t.threads[i]) ensures t.committing && NoOperation(t) {
      SumHas(t.threads, q => if AtCommit(q) then 1 else 0, i);
      NoneBusy(t.threads);
    }
    forall i, j | 0 <= i < j < |t.threads| ensures !(AtCommit(t.threads[i]) && AtCommit(t.threads[j])) {
      SumHasTwo(t.threads, q => if AtCommit(q) then 1 else 0, i, j);
    }
    assert forall i :: 0 <= i < |t.threads| && Busy(t.threads[i]) ==> PhaseOk(t, t.threads[i]);
  }

  predicate NoOperation(s: State) {
    forall i :: 0 <= i < |s.threads| ==> !Busy(s.threads[i])
  }

  /** No begin_op sleeps in vain: its test still tells it to wait, and there is an operation or a
      commit in progress that will wake it. */
  lemma {:induction false} SleepersWillWake(size: int, k: nat, es: seq<Event>, t: State, i: nat)
    requires Run(Init(size, k), es, t) && i < |t.threads| && t.threads[i].Asleep?
    ensures MustWait(t) && (Ops(t.threads) > 0 || Committers(t.threads) > 0)
  {
    InitInv(size, k);
    RunInv(Init(size, k), es, t);
    assert PhaseOk(t, t.threads[i]);
  }

  /** No operation starts while a commit is in progress. */
  lemma {:induction false} NoStartDuringCommit(size: int, k: nat, es: seq<Event>, t: State, e: Event, i: nat)
    requires Run(Init(size, k), es, t) && Enabled(t, e) && i < |t.threads|
    requires !Busy(t.threads[i]) && i < |Next(t, e).threads| && Busy(Next(t, e).threads[i])
    ensures !t.committing && Committers(t.threads) == 0 && Committers(Next(t, e).threads) == 0
  {
    InitInv(size, k);
    RunInv(Init(size, k), es, t);
    StepInv(t, e);
    Move(t.threads, e.t, InOp(0, t.commits));
  }

  // ---------- what a commit commits ----------

  /** Only a commit takes blocks out of the log. */
  lemma {:induction false} OnlyCommitEmpties(s: State, e: Event)
    requires Enabled(s, e) && !e.Commit?
    ensures s.blocks <= Next(s, e).blocks
  {
  }

  /** A log_write that returns has its block in the log, and the log is otherwise as it was. */
  lemma {:induction false} AppendLogs(s: State, t: nat)
    requires Enabled(s, Append(t))
    ensures var b, n := s.threads[t].block, Next(s, Append(t));
      b in n.blocks && (n.blocks == s.blocks || (b !in s.blocks && n.blocks == s.blocks + [b]))
  {
    var b, n := s.threads[t].block, Next(s, Append(t));
    assert b !in s.blocks ==> n.blocks[|s.blocks|] == b;
  }

  /** The end_op of the last operation commits what is logged; any other end_op leaves the commit to
      a later one and wakes the sleepers. */
  lemma {:induction false} LastEndCommits(size: int, k: nat, es: seq<Event>, s: State, t: nat)
    requires Run(Init(size, k), es, s) && Enabled(s, End(t))
    ensures var n := Next(s, End(t));
      && n.blocks == s.blocks && n.trouble.Fine? && |n.threads| == |s.threads| && !s.committing
      && Ops(n.threads) == Ops(s.threads) - 1 == n.outstanding
      && (n.committing <==> Ops(s.threads) == 1)
      && n.threads[t] == (if n.committing then Committing else Out)
      && forall i :: 0 <= i < |s.threads| && i != t ==>
           n.threads[i] == if s.threads[i].Asleep? && !n.committing then Out else s.threads[i]
  {
    InitInv(size, k);
    RunInv(Init(size, k), es, s);
    StepInv(s, End(t));
    StepEnd(s, t);
    Move(s.threads, t, Out);
  }

  /** No commit comes while an operation is in progress: its blocks go into one transaction. */
  lemma {:induction false} NoCommitInOperation(size: int, k: nat, es: seq<Event>, s: State, e: Event, i: nat)
    requires Run(Init(size, k), es, s) && Enabled(s, e) && i < |s.threads| && Busy(s.threads[i])
    ensures !e.Commit? && !e.Reset?
  {
    Discipline(size, k, es, s);
  }

  /** The state before event j of a run. */
  ghost function Before(s: State, es: seq<Event>, t: State, j: nat): State
    requires Run(s, es, t) && j <= |es|
    decreases j
  {
    if j == 0 then s else Before(Next(s, es[0]), es[1..], t, j - 1)
  }

  lemma {:induction false} BeforeNext(s: State, es: seq<Event>, t: State, j: nat)
    requires Run(s, es, t) && j < |es|
    ensures var b := Before(s, es, t, j); Enabled(b, es[j]) && Before(s, es, t, j + 1) == Next(b, es[j])
    decreases j
  {
    if j > 0 {
      BeforeNext(Next(s, es[0]), es[1..], t, j - 1);
    }
  }

  /** Event j is a commit that has block b in its transaction. */
  ghost predicate CommitsBlock(s: State, es: seq<Event>, t: State, j: nat, b: nat)
    requires Run(s, es, t)
  {
    j < |es| && es[j].Commit? && b in Before(s, es, t, j).blocks
  }

  /** A logged block stays logged up to the next commit, which has it. */
  lemma {:induction false} LoggedUntilCommit(s: State, es: seq<Event>, t: State, i: nat, j: nat, b: nat)
    requires Run(s, es, t) && i <= j <= |es| && b in Before(s, es, t, i).blocks
    requires forall m :: i <= m < j ==> !es[m].Commit?
    ensures b in Before(s, es, t, j).blocks
    decreases j - i
  {
    if i < j {
      BeforeNext(s, es, t, i);
      OnlyCommitEmpties(Before(s, es, t, i), es[i]);
      LoggedUntilCommit(s, es, t, i + 1, j, b);
    }
  }

  /** The commit that follows an append has its block, whichever thread commits. */
  lemma {:induction false} CommitHasAppended(s: State, es: seq<Event>, t: State, i: nat, j: nat)
    requires Run(s, es, t) && i < j < |es| && es[i].Append? && es[j].Commit?
    requires forall m :: i <= m < j ==> !es[m].Commit?
    ensures var p := Before(s, es, t, i); Enabled(p, es[i]) && CommitsBlock(s, es, t, j, p.threads[es[i].t].block)
  {
    BeforeNext(s, es, t, i);
    AppendLogs(Before(s, es, t, i), es[i].t);
    LoggedUntilCommit(s, es, t, i + 1, j, Before(s, es, t, i).threads[es[i].t].block);
  }

  lemma {:induction false} NextCommit(es: seq<Event>, i: nat) returns (j: nat)
    requires i <= |es|
    ensures i <= j <= |es| && (forall m :: i <= m < j ==> !es[m].Commit?) && (j < |es| ==> es[j].Commit?)
    decreases |es| - i
  {
    if i == |es| || es[i].Commit? {
      j := i;
    } else {
      j := NextCommit(es, i + 1);
    }
  }

  /** Nothing is forgotten: once all operations and commits are over, every block that any of them
      appended was in a commit. */
  lemma {:induction false} AllCommitted(size: int, k: nat, es: seq<Event>, t: State, i: nat) returns (j: nat)
    requires Run(Init(size, k), es, t) && i < |es| && es[i].Append?
    requires Ops(t.threads) == 0 && Committers(t.threads) == 0
    ensures var p := Before(Init(size, k), es, t, i);
      i < j && Enabled(p, es[i]) && CommitsBlock(Init(size, k), es, t, j, p.threads[es[i].t].block)
  {
    var s := Init(size, k);
    InitInv(size, k);
    RunInv(s, es, t);
    BeforeNext(s, es, t, i);
    j := NextCommit(es, i + 1);
    if j < |es| {
      CommitHasAppended(s, es, t, i, j);
    } else {
      var b := Before(s, es, t, i).threads[es[i].t].block;
      AppendLogs(Before(s, es, t, i), es[i].t);
      LoggedUntilCommit(s, es, t, i + 1, j, b);
      BeforeEnd(s, es, t);
      assert false;
    }
  }

  lemma {:induction false} BeforeEnd(s: State, es: seq<Event>, t: State)
    requires Run(s, es, t)
    ensures Before(s, es, t, |es|) == t
    decreases |es|
  {
    if es != [] {
      BeforeEnd(Next(s, es[0]), es[1..], t);
    }
  }

  // ---------- the size of the log region ----------

  lemma {:induction false} RunConcat(s: State, es: seq<Event>, t: State, fs: seq<Event>, u: State)
    requires Run(s, es, t) && Run(t, fs, u)
    ensures Run(s, es + fs, u)
    decreases |es|
  {
    if es == [] {
      assert es + fs == fs;
    } else {
      assert (es + fs)[0] == es[0] && (es + fs)[1..] == es[1..] + fs;
      RunConcat(Next(s, es[0]), es[1..], t, fs, u);
    }
  }

  /** Three operations have added blocks 0 .. j - 1 in turn. */
  function Filled(size: int, j: nat): State {
    State(size, 3, false, seq(j, i => i), [InOp((j + 2) / 3, 0), InOp((j + 1) / 3, 0), InOp(j / 3, 0)], 0, Fine)
  }

  lemma {:induction false} ThreeBegin(size: int)
    ensures Run(Init(size, 3), [Begin(0), Begin(1), Begin(2)], Filled(size, 0))
    ensures Thrifty(Init(size, 3), [Begin(0), Begin(1), Begin(2)])
  {
    var s := Init(size, 3);
    var s1 := Next(s, Begin(0));
    var s2 := Next(s1, Begin(1));
    assert Next(s2, Begin(2)) == Filled(size, 0);
    assert Run(s2, [Begin(2)], Filled(size, 0)) && Thrifty(s2, [Begin(2)]);
    assert [Begin(1), Begin(2)][1..] == [Begin(2)];
    assert Run(s1, [Begin(1), Begin(2)], Filled(size, 0)) && Thrifty(s1, [Begin(1), Begin(2)]);
    assert [Begin(0), Begin(1), Begin(2)][1..] == [Begin(1), Begin(2)];
  }

  lemma {:induction false} FillOne(size: int, j: nat)
    requires j < size - 1 && j < LOGSIZE
    ensures Run(Filled(size, j), [Check(j % 3, j), Append(j % 3)], Filled(size, j + 1))
    ensures Thrifty(Filled(size, j), [Check(j % 3, j), Append(j % 3)])
  {
    var s := Filled(size, j);
    assert (j % 3 == 0 ==> s.threads[0].spent == j / 3) && (j % 3 == 1 ==> s.threads[1].spent == j / 3);
    var s1 := Next(s, Check(j % 3, j));
    assert j !in s.blocks;
    var s2 := Next(s1, Append(j % 3));
    assert s2.blocks == Filled(size, j + 1).blocks;
    assert s2.threads == Filled(size, j + 1).threads;
    assert Run(s1, [Append(j % 3)], s2) && Thrifty(s1, [Append(j % 3)]);
    assert [Check(j % 3, j), Append(j % 3)][1..] == [Append(j % 3)];
  }

  lemma {:induction false} Fill(size: int, j: nat) returns (es: seq<Event>)
    requires j <= LOGSIZE && (j == 0 || j <= size - 1)
    ensures Run(Init(size, 3), es, Filled(size, j)) && Thrifty(Init(size, 3), es)
  {
    if j == 0 {
      es := [Begin(0), Begin(1), Begin(2)];
      ThreeBegin(size);
    } else {
      var fs := Fill(size, j - 1);
      FillOne(size, j - 1);
      es := fs + [Check((j - 1) % 3, j - 1), Append((j - 1) % 3)];
      RunConcat(Init(size, 3), fs, Filled(size, j - 1), [Check((j - 1) % 3, j - 1), Append((j - 1) % 3)],
        Filled(size, j));
      ThriftyConcat(Init(size, 3), fs, Filled(size, j - 1), [Check((j - 1) % 3, j - 1), Append((j - 1) % 3)]);
    }
  }

  ghost predicate Reachable(size: int, k: nat, t: State) {
    exists es :: Run(Init(size, k), es, t)
  }

  /** In this run no operation calls log_write again after it has added MAXOPBLOCKS blocks. */
  ghost predicate Thrifty(s: State, es: seq<Event>)
    decreases |es|
  {
    es == [] || (Enabled(s, es[0]) && (es[0].Check? ==> s.threads[es[0].t].spent < MAXOPBLOCKS) &&
      Thrifty(Next(s, es[0]), es[1..]))
  }

  ghost predicate ThriftyReachable(size: int, k: nat, t: State) {
    exists es :: Run(Init(size, k), es, t) && Thrifty(Init(size, k), es)
  }

  lemma {:induction false} ThriftyFine(s: State, es: seq<Event>, t: State)
    requires Inv(s) && s.trouble.Fine? && s.size > LOGSIZE && Run(s, es, t) && Thrifty(s, es)
    ensures t.trouble.Fine?
    decreases |es|
  {
    if es != [] {
      StepInv(s, es[0]);
      if es[0].Check? {
        assert PhaseOk(s, s.threads[es[0].t]);
        Move(s.threads, es[0].t, Out);
      }
      ThriftyFine(Next(s, es[0]), es[1..], t);
    }
  }

  lemma {:induction false} ThriftyConcat(s: State, es: seq<Event>, t: State, fs: seq<Event>)
    requires Run(s, es, t) && Thrifty(s, es) && Thrifty(t, fs)
    ensures Thrifty(s, es + fs)
    decreases |es|
  {
    if es == [] {
      assert es + fs == fs;
    } else {
      assert (es + fs)[0] == es[0] && (es + fs)[1..] == es[1..] + fs;
      ThriftyConcat(Next(s, es[0]), es[1..], t, fs);
    }
  }

  /** A log region of LOGSIZE blocks or fewer, as mkfs makes it, is too small for log_write's test:
      operations that keep to their reservation panic. */
  lemma {:induction false} TooBigHappens(size: int) returns (t: State)
    requires size <= LOGSIZE
    ensures ThriftyReachable(size, 3, t) && t.trouble == TooBig
  {
    var j: nat := if size <= 1 then 0 else size - 1;
    var fs := Fill(size, j);
    var s := Filled(size, j);
    t := s.(trouble := TooBig);
    assert Enabled(s, Check(2, j)) && Next(s, Check(2, j)) == t;
    assert Run(s, [Check(2, j)], t);
    RunConcat(Init(size, 3), fs, s, [Check(2, j)], t);
    ThriftyConcat(Init(size, 3), fs, s, [Check(2, j)]);
    assert Run(Init(size, 3), fs + [Check(2, j)], t);
  }

  /** Operations that stop calling log_write once their reservation is spent never make it panic,
      exactly when the log region has more than LOGSIZE blocks. */
  lemma {:induction false} NoPanicExactly(size: int)
    ensures (forall k: nat, t :: ThriftyReachable(size, k, t) ==> t.trouble.Fine?) <==> size > LOGSIZE
  {
    if size > LOGSIZE {
      forall k: nat, t | ThriftyReachable(size, k, t) ensures t.trouble.Fine? {
        var es :| Run(Init(size, k), es, t) && Thrifty(Init(size, k), es);
        InitInv(size, k);
        ThriftyFine(Init(size, k), es, t);
      }
    } else {
      var t := TooBigHappens(size);
      assert ThriftyReachable(size, 3, t) && !t.trouble.Fine?;
    }
  }

  /** When three operations have spent their whole reservations, log_write panics even for a block
      that is already in the log, however large the region is. */
  lemma {:induction false} FullLogRefusesAbsorption(size: int) returns (t: State)
    requires size > LOGSIZE
    ensures Reachable(size, 3, t) && t.trouble == TooBig && 0 in t.blocks
  {
    var fs := Fill(size, LOGSIZE);
    var s := Filled(size, LOGSIZE);
    t := s.(trouble := TooBig);
    assert Enabled(s, Check(2, 0)) && Next(s, Check(2, 0)) == t;
    assert Run(s, [Check(2, 0)], t);
    RunConcat(Init(size, 3), fs, s, [Check(2, 0)], t);
    assert Run(Init(size, 3), fs + [Check(2, 0)], t);
    assert s.blocks[0] == 0;
  }

  /** log_write's test and its append are different critical sections: two threads can pass the test
      for the last block of the region, and both append. */
  lemma {:induction false} OverrunHappens(size: int) returns (t: State)
    requires 2 <= size <= LOGSIZE
    ensures Reachable(size, 3, t) && t.trouble.Fine? && t.size == size == |t.blocks|
  {
    var j: nat := size - 2;
    var fs := Fill(size, j);
    var s := Filled(size, j);
    var s1 := Next(s, Check(1, j));
    var s2 := Next(s1, Check(2, j + 1));
    assert j !in s2.blocks;
    var s3 := Next(s2, Append(1));
    assert j + 1 !in s3.blocks;
    t := Next(s3, Append(2));
    var gs := [Check(1, j), Check(2, j + 1), Append(1), Append(2)];
    assert Run(s3, [Append(2)], t);
    assert [Append(1), Append(2)][1..] == [Append(2)];
    assert Run(s2, [Append(1), Append(2)], t);
    assert gs[1..] == [Check(2, j + 1), Append(1), Append(2)] && gs[1..][1..] == [Append(1), Append(2)];
    assert Run(s1, gs[1..], t);
    RunConcat(Init(size, 3), fs, s, gs, t);
    assert Run(Init(size, 3), fs + gs, t);
  }

  /** The logged blocks always fit in the region behind its header block, exactly when the region
      has more than LOGSIZE blocks or so few that log_write always panics. */
  lemma {:induction false} FitsExactly(size: int)
    ensures (forall k: nat, t :: Reachable(size, k, t) ==> Fits(t)) <==> size <= 1 || size > LOGSIZE
  {
    if size > LOGSIZE {
      forall k: nat, t | Reachable(size, k, t) ensures Fits(t) {
        var es :| Run(Init(size, k), es, t);
        InitInv(size, k);
        RunInv(Init(size, k), es, t);
      }
    } else if size <= 1 {
      forall k: nat, t | Reachable(size, k, t) ensures Fits(t) {
        var es :| Run(Init(size, k), es, t);
        AlwaysEmpty(Init(size, k), es, t);
      }
    } else {
      var t := OverrunHappens(size);
      assert Reachable(size, 3, t) && !Fits(t);
    }
  }

  predicate Fits(s: State) {
    s.blocks == [] || |s.blocks| <= s.size - 1
  }

  lemma {:induction false} AlwaysEmpty(s: State, es: seq<Event>, t: State)
    requires s.size <= 1 && s.blocks == [] && (forall i :: 0 <= i < |s.threads| ==> !s.threads[i].Checked?) &&
      Run(s, es, t)
    ensures t.blocks == []
    decreases |es|
  {
    if es != [] {
      AlwaysEmpty(Next(s, es[0]), es[1..], t);
    }
  }
}
