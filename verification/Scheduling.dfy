/** sleep, wakeup, exit, wait, fork, yield and the scheduler (proc.c) in every interleaving of any
    number of processes on any number of CPUs.  A step is a stretch between two points where another
    CPU can come in: taking or giving up a lock, or switching to or from the scheduler.  What the
    scans of the table compute is taken from ProcTable. */
module Scheduling {
  import opened ProcTable

  /** Where a process is, or where it will go on when it next runs. */
  datatype Pc =
    | Plain
    | SleepWant(ch: Chan, lk: nat)     // in sleep(), before acquire(&ptable.lock)
    | SleepBoth(ch: Chan, lk: nat)     // before release(lk)
    | SleepReady(ch: Chan, lk: nat)    // before p->state = SLEEPING and sched()
    | SleepBack(ch: Chan, lk: nat)     // after sched()
    | Reacquire(lk: nat)               // before acquire(lk)
    | YieldReady
    | YieldBack
    | PauseReady(lk: nat)              // in yield(), called by the timer before acquire(lk)
    | PauseBack(lk: nat)
    | WakeReady(ch: Chan)
    | ExitReady
    | WaitReady
    | WaitBack                         // in wait(), after sleep's sched()
    | Fresh                            // at forkret

  datatype Holder = Free | ByProc(p: nat) | ByCpu(c: nat)

  const PTABLE := 0   // ptable.lock among the locks
  const INIT := 0     // initproc

  /** The table's columns; each process's place, its CPU, the slot it is filling in fork() and how
      many times it has called sleep; what each CPU runs; who holds each lock. */
  datatype State = State(st: seq<PState>, chan: seq<Chan>, parent: seq<int>, killed: seq<bool>,
                         pc: seq<Pc>, on: seq<int>, filling: seq<int>, calls: seq<nat>,
                         cpu: seq<int>, locks: seq<Holder>)

  /** userinit() has made the first process. */
  function Init(n: nat, cpus: nat, locks: nat): State
    requires n > 0
  {
    State(seq(n, i => if i == INIT then Runnable else Unused), seq(n, i => NoChan), seq(n, i => -1), seq(n, i => false),
          seq(n, i => Fresh), seq(n, i => -1), seq(n, i => -1), seq(n, i => 0),
          seq(cpus, i => -1), seq(locks + 1, i => Free))
  }

  /** The scheduler of a CPU. */
  datatype CpuEvent = SchedLock(c: nat) | SchedPick(c: nat, i: nat) | SchedUnlock(c: nat)

  /** A running process and a lock that is not ptable.lock. */
  datatype LockEvent = Acquire(p: nat, l: nat) | Release(p: nat, l: nat)
    | CallSleep(p: nat, ch: Chan, lk: nat) | SleepRelease(p: nat) | Retake(p: nat)

  /** A call that takes ptable.lock. */
  datatype CallEvent = CallYield(p: nat) | CallWakeup(p: nat, ch: Chan) | CallExit(p: nat) | CallWait(p: nat)

  /** sleep() takes ptable.lock; and the steps after a switch back. */
  datatype TurnEvent = SleepLock(p: nat) | SleepTidy(p: nat) | Go(p: nat) | WaitAgain(p: nat)

  /** A switch to the scheduler. */
  datatype OffEvent = SleepSwitch(p: nat) | YieldSwitch(p: nat) | DoExit(p: nat) | DoWait(p: nat)

  datatype WakeEvent = DoWakeup(p: nat) | IntrWakeup(ch: Chan) | Kill(q: nat)

  datatype ForkEvent = ForkAlloc(p: nat, i: nat) | ForkFail(p: nat) | ForkParent(p: nat) | ForkRun(p: nat)

  datatype Event = Cpu(cpu: CpuEvent) | Lock(lock: LockEvent) | Call(call: CallEvent) | Turn(turn: TurnEvent)
                 | Off(off: OffEvent) | Rouse(wake: WakeEvent) | Fork(fork: ForkEvent)

  predicate Sizes(s: State) {
    && |s.st| == |s.chan| == |s.parent| == |s.killed| == |s.pc| == |s.on| == |s.filling| == |s.calls|
    && 0 < |s.st| && 0 < |s.locks|
  }

  predicate HoldsNone(s: State, p: nat) {
    forall l :: 0 <= l < |s.locks| ==> s.locks[l] != ByProc(p)
  }

  predicate HoldsOnly(s: State, p: nat, lk: nat) {
    forall l :: 0 <= l < |s.locks| && l != lk ==> s.locks[l] != ByProc(p)
  }

  predicate Runs(s: State, p: nat)
    requires Sizes(s)
  {
    p < |s.st| && s.st[p].Running?
  }

  /** p is running at place pc. */
  predicate At(s: State, p: nat, pc: Pc)
    requires Sizes(s)
  {
    p < |s.st| && s.st[p].Running? && s.pc[p] == pc
  }

  predicate PtableFree(s: State)
    requires Sizes(s)
  {
    s.locks[PTABLE].Free?
  }

  predicate Fills(s: State, p: nat)
    requires Sizes(s)
  {
    At(s, p, Plain) && 0 <= s.filling[p] < |s.st|
  }

  predicate CpuEnabled(s: State, e: CpuEvent)
    requires Sizes(s)
  {
    match e
    case SchedLock(c) => c < |s.cpu| && s.cpu[c] == -1 && PtableFree(s)
    case SchedPick(c, i) => c < |s.cpu| && s.locks[PTABLE] == ByCpu(c) && i < |s.st| && s.st[i].Runnable?
    case SchedUnlock(c) => s.locks[PTABLE] == ByCpu(c)
  }

  predicate LockEnabled(s: State, e: LockEvent)
    requires Sizes(s)
  {
    match e
    case Acquire(p, l) => At(s, p, Plain) && 0 < l < |s.locks| && s.locks[l].Free?
    case Release(p, l) => At(s, p, Plain) && 0 < l < |s.locks| && s.locks[l] == ByProc(p)
    case CallSleep(p, ch, lk) => At(s, p, Plain) && ch.Object? && 0 < lk < |s.locks| && s.locks[lk] == ByProc(p) &&
      HoldsOnly(s, p, lk)
    case SleepRelease(p) => Runs(s, p) && s.pc[p].SleepBoth? && s.pc[p].lk < |s.locks|
    case Retake(p) => Runs(s, p) && s.pc[p].Reacquire? && s.pc[p].lk < |s.locks| && s.locks[s.pc[p].lk].Free?
  }

  predicate CallEnabled(s: State, e: CallEvent)
    requires Sizes(s)
  {
    match e
    case CallYield(p) => Runs(s, p) && (s.pc[p].Plain? || s.pc[p].Reacquire?) && HoldsNone(s, p) && PtableFree(s)
    case CallWakeup(p, ch) => At(s, p, Plain) && PtableFree(s)
    case CallExit(p) => At(s, p, Plain) && p != INIT && s.filling[p] == -1 && HoldsNone(s, p) && PtableFree(s)
    case CallWait(p) => At(s, p, Plain) && s.filling[p] == -1 && HoldsNone(s, p) && PtableFree(s)
  }

  predicate TurnEnabled(s: State, e: TurnEvent)
    requires Sizes(s)
  {
    match e
    case SleepLock(p) => Runs(s, p) && s.pc[p].SleepWant? && PtableFree(s)
    case SleepTidy(p) => Runs(s, p) && s.pc[p].SleepBack?
    case Go(p) => Runs(s, p) && (s.pc[p].YieldBack? || s.pc[p].PauseBack? || s.pc[p].Fresh?)
    case WaitAgain(p) => At(s, p, WaitBack)
  }

  predicate OffEnabled(s: State, e: OffEvent)
    requires Sizes(s)
  {
    Runs(s, e.p) && 0 <= s.on[e.p] < |s.cpu| &&
    match e
    case SleepSwitch(p) => s.pc[p].SleepReady?
    case YieldSwitch(p) => s.pc[p].YieldReady? || s.pc[p].PauseReady?
    case DoExit(p) => s.pc[p].ExitReady?
    case DoWait(p) => s.pc[p].WaitReady?
  }

  predicate WakeEnabled(s: State, e: WakeEvent)
    requires Sizes(s)
  {
    match e
    case DoWakeup(p) => Runs(s, p) && s.pc[p].WakeReady?
    case IntrWakeup(ch) => PtableFree(s)
    case Kill(q) => q < |s.st| && PtableFree(s)
  }

  predicate ForkEnabled(s: State, e: ForkEvent)
    requires Sizes(s)
  {
    match e
    case ForkAlloc(p, i) => At(s, p, Plain) && s.filling[p] == -1 && PtableFree(s) && i < |s.st| && s.st[i].Unused?
    case ForkFail(p) => Fills(s, p) && s.parent[s.filling[p]] == -1
    case ForkParent(p) => Fills(s, p) && s.parent[s.filling[p]] == -1
    case ForkRun(p) => Fills(s, p) && s.parent[s.filling[p]] == p && PtableFree(s)
  }

  predicate Enabled(s: State, e: Event)
    requires Sizes(s)
  {
    match e
    case Cpu(x) => CpuEnabled(s, x)
    case Lock(x) => LockEnabled(s, x)
    case Call(x) => CallEnabled(s, x)
    case Turn(x) => TurnEnabled(s, x)
    case Off(x) => OffEnabled(s, x)
    case Rouse(x) => WakeEnabled(s, x)
    case Fork(x) => ForkEnabled(s, x)
  }

  /** sched(): p's CPU goes back to its scheduler, which now holds ptable.lock; p stays at pc. */
  function Switch(s: State, p: nat, st: seq<PState>, pc: Pc): State
    requires Sizes(s) && p < |s.st| && 0 <= s.on[p] < |s.cpu|
  {
    s.(st := st, pc := s.pc[p := pc], on := s.on[p := -1], cpu := s.cpu[s.on[p] := -1],
      locks := s.locks[PTABLE := ByCpu(s.on[p])])
  }

  function Moved(s: State, p: nat, pc: Pc, holder: Holder): State
    requires Sizes(s) && p < |s.st|
  {
    s.(pc := s.pc[p := pc], locks := s.locks[PTABLE := holder])
  }

  /** One scan of wait() and what follows it. */
  function Wait(s: State, p: nat): State
    requires Sizes(s) && p < |s.st| && 0 <= s.on[p] < |s.cpu|
  {
    var q := FirstZombie(s.st, s.parent, p, 0);
    if q < |s.st| then
      Moved(s, p, Plain, Free).(st := s.st[q := Unused], parent := s.parent[q := -1], killed := s.killed[q := false])
    else if p !in s.parent || s.killed[p] then Moved(s, p, Plain, Free)
    else Switch(s, p, s.st[p := Sleeping], WaitBack).(chan := s.chan[p := Self(p)],
      calls := s.calls[p := s.calls[p] + 1])
  }

  /** The locked part of exit(). */
  function Exit(s: State, p: nat): State
    requires Sizes(s) && p < |s.st| && 0 <= s.on[p] < |s.cpu|
  {
    Switch(s, p, Exited(s.st, s.chan, s.parent, p, INIT), s.pc[p]).(parent := Adopt(s.parent, p, INIT))
  }

  function CpuNext(s: State, e: CpuEvent): State
    requires Sizes(s) && CpuEnabled(s, e)
  {
    match e
    case SchedLock(c) => s.(locks := s.locks[PTABLE := ByCpu(c)])
    case SchedPick(c, i) => s.(cpu := s.cpu[c := i], st := s.st[i := Running], on := s.on[i := c],
      locks := s.locks[PTABLE := ByProc(i)])
    case SchedUnlock(c) => s.(locks := s.locks[PTABLE := Free])
  }

  function LockNext(s: State, e: LockEvent): State
    requires Sizes(s) && LockEnabled(s, e)
  {
    match e
    case Acquire(p, l) => s.(locks := s.locks[l := ByProc(p)])
    case Release(p, l) => s.(locks := s.locks[l := Free])
    case CallSleep(p, ch, lk) => s.(pc := s.pc[p := SleepWant(ch, lk)], calls := s.calls[p := s.calls[p] + 1])
    case SleepRelease(p) => s.(pc := s.pc[p := SleepReady(s.pc[p].ch, s.pc[p].lk)],
      locks := s.locks[s.pc[p].lk := Free])
    case Retake(p) => s.(pc := s.pc[p := Plain], locks := s.locks[s.pc[p].lk := ByProc(p)])
  }

  function CallNext(s: State, e: CallEvent): State
    requires Sizes(s) && CallEnabled(s, e)
  {
    match e
    case CallYield(p) => Moved(s, p, if s.pc[p].Plain? then YieldReady else PauseReady(s.pc[p].lk), ByProc(p))
    case CallWakeup(p, ch) => Moved(s, p, WakeReady(ch), ByProc(p))
    case CallExit(p) => Moved(s, p, ExitReady, ByProc(p))
    case CallWait(p) => Moved(s, p, WaitReady, ByProc(p))
  }

  function TurnNext(s: State, e: TurnEvent): State
    requires Sizes(s) && TurnEnabled(s, e)
  {
    match e
    case SleepLock(p) => Moved(s, p, SleepBoth(s.pc[p].ch, s.pc[p].lk), ByProc(p))
    case SleepTidy(p) => Moved(s, p, Reacquire(s.pc[p].lk), Free).(chan := s.chan[p := NoChan])
    case Go(p) => Moved(s, p, if s.pc[p].PauseBack? then Reacquire(s.pc[p].lk) else Plain, Free)
    case WaitAgain(p) => s.(pc := s.pc[p := WaitReady], chan := s.chan[p := NoChan])
  }

  function OffNext(s: State, e: OffEvent): State
    requires Sizes(s) && OffEnabled(s, e)
  {
    match e
    case SleepSwitch(p) =>
      Switch(s, p, s.st[p := Sleeping], SleepBack(s.pc[p].ch, s.pc[p].lk)).(chan := s.chan[p := s.pc[p].ch])
    case YieldSwitch(p) =>
      Switch(s, p, s.st[p := Runnable], if s.pc[p].YieldReady? then YieldBack else PauseBack(s.pc[p].lk))
    case DoExit(p) => Exit(s, p)
    case DoWait(p) => Wait(s, p)
  }

  function WakeNext(s: State, e: WakeEvent): State
    requires Sizes(s) && WakeEnabled(s, e)
  {
    match e
    case DoWakeup(p) => Moved(s, p, Plain, Free).(st := Wake(s.st, s.chan, s.pc[p].ch))
    case IntrWakeup(ch) => s.(st := Wake(s.st, s.chan, ch))
    case Kill(q) => s.(killed := s.killed[q := true], st := if s.st[q].Sleeping? then s.st[q := Runnable] else s.st)
  }

  function ForkNext(s: State, e: ForkEvent): State
    requires Sizes(s) && ForkEnabled(s, e)
  {
    match e
    case ForkAlloc(p, i) => s.(st := s.st[i := Embryo], pc := s.pc[i := Fresh], filling := s.filling[p := i])
    case ForkFail(p) => s.(st := s.st[s.filling[p] := Unused], filling := s.filling[p := -1])
    case ForkParent(p) => s.(parent := s.parent[s.filling[p] := p])
    case ForkRun(p) => s.(st := s.st[s.filling[p] := Runnable], filling := s.filling[p := -1])
  }

  function Next(s: State, e: Event): State
    requires Sizes(s) && Enabled(s, e)
  {
    match e
    case Cpu(x) => CpuNext(s, x)
    case Lock(x) => LockNext(s, x)
    case Call(x) => CallNext(s, x)
    case Turn(x) => TurnNext(s, x)
    case Off(x) => OffNext(s, x)
    case Rouse(x) => WakeNext(s, x)
    case Fork(x) => ForkNext(s, x)
  }

  // ---------- the invariant ----------

  /** Running processes and the CPUs that run them match one to one. */
  predicate CpuOk(st: seq<PState>, on: seq<int>, cpu: seq<int>) {
    && |on| == |st|
    && (forall p :: 0 <= p < |st| ==> (st[p].Running? <==> on[p] != -1))
    && (forall p :: 0 <= p < |st| && on[p] != -1 ==> 0 <= on[p] < |cpu| && cpu[on[p]] == p)
    && (forall c :: 0 <= c < |cpu| && cpu[c] != -1 ==> 0 <= cpu[c] < |st| && on[cpu[c]] == c)
  }

  /** At these places a running process has ptable.lock. */
  predicate InPtable(pc: Pc) {
    !(pc.Plain? || pc.SleepWant? || pc.Reacquire?)
  }

  predicate PtableOk(st: seq<PState>, pc: seq<Pc>, cpu: seq<int>, holder: Holder) {
    && |pc| == |st|
    && (forall p :: 0 <= p < |st| ==> (st[p].Running? && InPtable(pc[p]) <==> holder == ByProc(p)))
    && (holder.ByProc? ==> holder.p < |st|)
    && (holder.ByCpu? ==> holder.c < |cpu| && cpu[holder.c] == -1)
  }

  /** A process in sleep() keeps lk until it has ptable.lock. */
  predicate SleepLocks(st: seq<PState>, pc: seq<Pc>, locks: seq<Holder>) {
    |pc| == |st| && forall p :: 0 <= p < |st| && st[p].Running? && (pc[p].SleepWant? || pc[p].SleepBoth?) ==>
      pc[p].lk < |locks| && locks[pc[p].lk] == ByProc(p)
  }

  predicate HasLk(pc: Pc) {
    pc.SleepWant? || pc.SleepBoth? || pc.SleepReady? || pc.SleepBack? || pc.Reacquire? || pc.PauseReady? ||
      pc.PauseBack?
  }

  predicate LksOk(pc: seq<Pc>, locks: nat) {
    forall p :: 0 <= p < |pc| && HasLk(pc[p]) ==> 0 < pc[p].lk < locks
  }

  predicate PlaceOk(st: PState, pc: Pc, chan: Chan, p: int) {
    match st
    case Sleeping => (pc.SleepBack? && chan == pc.ch) || (pc.WaitBack? && chan == Self(p))
    case Runnable => pc.SleepBack? || pc.WaitBack? || pc.YieldBack? || pc.PauseBack? || pc.Fresh?
    case Embryo => pc.Fresh?
    case _ => true
  }

  predicate PlacesOk(st: seq<PState>, pc: seq<Pc>, chan: seq<Chan>) {
    |pc| == |chan| == |st| && forall p :: 0 <= p < |st| ==> PlaceOk(st[p], pc[p], chan[p], p)
  }

  /** Parents are live, and every process that has run has one, except init. */
  predicate ParentsOk(st: seq<PState>, parent: seq<int>) {
    && |parent| == |st| && 0 < |st|
    && Live(st[INIT]) && parent[INIT] == -1
    && (forall q :: 0 <= q < |st| && parent[q] != -1 ==> 0 <= parent[q] < |st| && parent[q] != q && Live(st[parent[q]]))
    && (forall q :: 0 < q < |st| && (Live(st[q]) || st[q].Zombie?) ==> parent[q] != -1)
    && (forall q :: 0 <= q < |st| && st[q].Unused? ==> parent[q] == -1)
  }

  /** Nobody sleeps in wait() while it has a zombie child. */
  predicate WaitersOk(st: seq<PState>, pc: seq<Pc>, parent: seq<int>) {
    |pc| == |parent| == |st| && forall q :: 0 <= q < |st| && st[q].Zombie? && 0 <= parent[q] < |st| ==>
      !(st[parent[q]].Sleeping? && pc[parent[q]].WaitBack?)
  }

  /** An embryo that fork() fills belongs to the one process that fills it. */
  predicate FillsOk(st: seq<PState>, parent: seq<int>, filling: seq<int>) {
    && |filling| == |parent| == |st|
    && (forall p :: 0 <= p < |st| && filling[p] != -1 ==>
         0 < filling[p] < |st| && st[filling[p]].Embryo? && Live(st[p]) && parent[filling[p]] in [-1, p])
    && (forall p, q :: 0 <= p < q < |st| && filling[p] != -1 ==> filling[q] != filling[p])
  }

  /** A process in exit() is not in fork(), and not init. */
  predicate ExitsOk(pc: seq<Pc>, filling: seq<int>) {
    |filling| == |pc| && forall p :: 0 <= p < |pc| && pc[p].ExitReady? ==> filling[p] == -1 && p != INIT
  }

  predicate Inv(s: State) {
    && Sizes(s)
    && CpuOk(s.st, s.on, s.cpu)
    && PtableOk(s.st, s.pc, s.cpu, s.locks[PTABLE])
    && SleepLocks(s.st, s.pc, s.locks) && LksOk(s.pc, |s.locks|)
    && PlacesOk(s.st, s.pc, s.chan)
    && ParentsOk(s.st, s.parent)
    && WaitersOk(s.st, s.pc, s.parent)
    && FillsOk(s.st, s.parent, s.filling) && ExitsOk(s.pc, s.filling)
  }

  // ---------- a running process moves, with or without ptable.lock ----------

  lemma {:induction false} PlacesAt(st: seq<PState>, pc: seq<Pc>, chan: seq<Chan>, p: nat, x: PState, y: Pc, ch: Chan)
    requires PlacesOk(st, pc, chan) && p < |st| && PlaceOk(x, y, ch, p)
    ensures PlacesOk(st[p := x], pc[p := y], chan[p := ch])
  {
  }

  lemma {:induction false} PtableMoves(st: seq<PState>, pc: seq<Pc>, cpu: seq<int>, p: nat, y: Pc, was: Holder,
                                       holder: Holder)
    requires PtableOk(st, pc, cpu, was) && p < |st| && st[p].Running? && (was == Free || was == ByProc(p))
    requires holder == if InPtable(y) then ByProc(p) else Free
    ensures PtableOk(st, pc[p := y], cpu, holder)
  {
  }

  lemma {:induction false} SleepLocksMove(st: seq<PState>, pc: seq<Pc>, locks: seq<Holder>, p: nat, y: Pc, l: nat,
                                          holder: Holder)
    requires SleepLocks(st, pc, locks) && LksOk(pc, |locks|) && p < |st| && l < |locks|
    requires l == PTABLE || locks[l] == Free || locks[l] == ByProc(p)
    requires HasLk(y) ==> 0 < y.lk < |locks|
    requires y.SleepWant? || y.SleepBoth? ==> locks[l := holder][y.lk] == ByProc(p)
    ensures SleepLocks(st, pc[p := y], locks[l := holder]) && LksOk(pc[p := y], |locks|)
  {
  }

  lemma {:induction false} WaitersMove(st: seq<PState>, pc: seq<Pc>, parent: seq<int>, p: nat, y: Pc)
    requires WaitersOk(st, pc, parent) && p < |st| && st[p].Running?
    ensures WaitersOk(st, pc[p := y], parent)
  {
  }

  /** p moves to y, taking or giving up ptable.lock as y says. */
  lemma {:induction false} Handed(s: State, p: nat, y: Pc, ch: Chan)
    requires Inv(s) && p < |s.st| && s.st[p].Running? && (s.locks[PTABLE] == Free || s.locks[PTABLE] == ByProc(p))
    requires HasLk(y) ==> 0 < y.lk < |s.locks|
    requires y.SleepWant? || y.SleepBoth? ==> s.locks[y.lk] == ByProc(p)
    requires y.ExitReady? ==> s.filling[p] == -1 && p != INIT
    ensures Inv(Moved(s, p, y, if InPtable(y) then ByProc(p) else Free).(chan := s.chan[p := ch]))
  {
    var holder := if InPtable(y) then ByProc(p) else Free;
    PtableMoves(s.st, s.pc, s.cpu, p, y, s.locks[PTABLE], holder);
    SleepLocksMove(s.st, s.pc, s.locks, p, y, PTABLE, holder);
    WaitersMove(s.st, s.pc, s.parent, p, y);
    PlacesAt(s.st, s.pc, s.chan, p, Running, y, ch);
    assert s.st[p := Running] == s.st;
  }

  /** p moves to y and lock l, not ptable.lock, changes hands between p and nobody. */
  lemma {:induction false} OtherLock(s: State, p: nat, y: Pc, l: nat, holder: Holder)
    requires Inv(s) && p < |s.st| && s.st[p].Running? && InPtable(y) == InPtable(s.pc[p])
    requires 0 < l < |s.locks| && (s.locks[l] == Free || s.locks[l] == ByProc(p)) && (HasLk(y) ==> 0 < y.lk < |s.locks|)
    requires y.SleepWant? || y.SleepBoth? ==> s.locks[l := holder][y.lk] == ByProc(p)
    requires y.ExitReady? ==> s.filling[p] == -1 && p != INIT
    ensures Inv(s.(pc := s.pc[p := y], locks := s.locks[l := holder]))
  {
    PtableSame(s.st, s.pc, s.cpu, p, y, s.locks[PTABLE]);
    SleepLocksMove(s.st, s.pc, s.locks, p, y, l, holder);
    WaitersMove(s.st, s.pc, s.parent, p, y);
    PlacesAt(s.st, s.pc, s.chan, p, Running, y, s.chan[p]);
    assert s.st[p := Running] == s.st && s.chan[p := s.chan[p]] == s.chan;
  }

  lemma {:induction false} PtableSame(st: seq<PState>, pc: seq<Pc>, cpu: seq<int>, p: nat, y: Pc, holder: Holder)
    requires PtableOk(st, pc, cpu, holder) && p < |st| && InPtable(y) == InPtable(pc[p])
    ensures PtableOk(st, pc[p := y], cpu, holder)
  {
  }

  /** A scheduler takes or gives up ptable.lock. */
  lemma {:induction false} SchedHolds(s: State, holder: Holder)
    requires Inv(s) && !s.locks[PTABLE].ByProc? &&
      (holder.Free? || (holder.ByCpu? && holder.c < |s.cpu| && s.cpu[holder.c] == -1))
    ensures Inv(s.(locks := s.locks[PTABLE := holder]))
  {
    assert LksOk(s.pc, |s.locks|);
  }

  // ---------- a live process changes its state ----------

  lemma {:induction false} LiveParents(st: seq<PState>, parent: seq<int>, p: nat, x: PState)
    requires ParentsOk(st, parent) && p < |st| && Live(st[p]) && Live(x)
    ensures ParentsOk(st[p := x], parent)
  {
  }

  lemma {:induction false} LiveFills(st: seq<PState>, parent: seq<int>, filling: seq<int>, p: nat, x: PState)
    requires FillsOk(st, parent, filling) && p < |st| && Live(st[p]) && Live(x)
    ensures FillsOk(st[p := x], parent, filling)
  {
  }

  lemma {:induction false} LiveWaiters(st: seq<PState>, pc: seq<Pc>, parent: seq<int>, p: nat, x: PState, y: Pc)
    requires WaitersOk(st, pc, parent) && p < |st| && Live(st[p]) && Live(x)
    requires !x.Sleeping? || !y.WaitBack? || FirstZombie(st, parent, p, 0) == |st|
    ensures WaitersOk(st[p := x], pc[p := y], parent)
  {
    assert forall q :: 0 <= q < |st| && parent[q] == p && st[q].Zombie? ==> ZombieChild(st, parent, p, q);
  }

  /** p leaves its CPU. */
  lemma {:induction false} CpuLeaves(st: seq<PState>, on: seq<int>, cpu: seq<int>, p: nat, x: PState)
    requires CpuOk(st, on, cpu) && p < |st| && st[p].Running? && !x.Running?
    ensures 0 <= on[p] < |cpu| && CpuOk(st[p := x], on[p := -1], cpu[on[p] := -1])
  {
  }

  lemma {:induction false} PtableLeaves(st: seq<PState>, pc: seq<Pc>, cpu: seq<int>, p: nat, x: PState, y: Pc, c: nat)
    requires PtableOk(st, pc, cpu, ByProc(p)) && p < |st| && !x.Running? && c < |cpu|
    ensures PtableOk(st[p := x], pc[p := y], cpu[c := -1], ByCpu(c))
  {
  }

  lemma {:induction false} SleepLocksLeave(st: seq<PState>, pc: seq<Pc>, locks: seq<Holder>, p: nat, x: PState, y: Pc,
                                           holder: Holder)
    requires SleepLocks(st, pc, locks) && LksOk(pc, |locks|) && p < |st| && 0 < |locks| && !x.Running? &&
      (HasLk(y) ==> 0 < y.lk < |locks|)
    ensures SleepLocks(st[p := x], pc[p := y], locks[PTABLE := holder]) && LksOk(pc[p := y], |locks|)
  {
  }

  /** p switches to the scheduler as a sleeper or as runnable. */
  lemma {:induction false} Switched(s: State, p: nat, x: PState, y: Pc, ch: Chan)
    requires Inv(s) && p < |s.st| && s.st[p].Running? && InPtable(s.pc[p]) && 0 <= s.on[p] < |s.cpu|
    requires (x.Sleeping? || x.Runnable?) && PlaceOk(x, y, ch, p) && !y.ExitReady? &&
      (HasLk(y) ==> 0 < y.lk < |s.locks|)
    requires !x.Sleeping? || !y.WaitBack? || FirstZombie(s.st, s.parent, p, 0) == |s.st|
    ensures Inv(Switch(s, p, s.st[p := x], y).(chan := s.chan[p := ch]))
  {
    LiveParents(s.st, s.parent, p, x);
    LiveFills(s.st, s.parent, s.filling, p, x);
    LiveWaiters(s.st, s.pc, s.parent, p, x, y);
    CpuLeaves(s.st, s.on, s.cpu, p, x);
    PtableLeaves(s.st, s.pc, s.cpu, p, x, y, s.on[p]);
    SleepLocksLeave(s.st, s.pc, s.locks, p, x, y, ByCpu(s.on[p]));
    PlacesAt(s.st, s.pc, s.chan, p, x, y, ch);
  }

  lemma {:induction false} PickPtable(st: seq<PState>, pc: seq<Pc>, cpu: seq<int>, c: nat, i: nat)
    requires PtableOk(st, pc, cpu, ByCpu(c)) && i < |st| && st[i].Runnable? && InPtable(pc[i])
    ensures PtableOk(st[i := Running], pc, cpu[c := i], ByProc(i))
  {
  }

  lemma {:induction false} PickCpu(st: seq<PState>, on: seq<int>, cpu: seq<int>, c: nat, i: nat)
    requires CpuOk(st, on, cpu) && i < |st| && !st[i].Running? && c < |cpu| && cpu[c] == -1
    ensures CpuOk(st[i := Running], on[i := c], cpu[c := i])
  {
  }

  lemma {:induction false} StepPick(s: State, c: nat, i: nat)
    requires Inv(s) && CpuEnabled(s, SchedPick(c, i))
    ensures Inv(CpuNext(s, SchedPick(c, i)))
  {
    assert PlaceOk(s.st[i], s.pc[i], s.chan[i], i);
    PickPtable(s.st, s.pc, s.cpu, c, i);
    PickCpu(s.st, s.on, s.cpu, c, i);
    LiveParents(s.st, s.parent, i, Running);
    LiveFills(s.st, s.parent, s.filling, i, Running);
    LiveWaiters(s.st, s.pc, s.parent, i, Running, s.pc[i]);
    PlacesAt(s.st, s.pc, s.chan, i, Running, s.pc[i], s.chan[i]);
    assert s.pc[i := s.pc[i]] == s.pc && s.chan[i := s.chan[i]] == s.chan;
    SleepLocksPick(s.st, s.pc, s.locks, i);
  }

  lemma {:induction false} SleepLocksPick(st: seq<PState>, pc: seq<Pc>, locks: seq<Holder>, i: nat)
    requires SleepLocks(st, pc, locks) && LksOk(pc, |locks|) && i < |st| && 0 < |locks| && !pc[i].SleepWant? &&
      !pc[i].SleepBoth?
    ensures SleepLocks(st[i := Running], pc, locks[PTABLE := ByProc(i)])
  {
  }

  // ---------- waking ----------

  /** w is st with some sleepers made runnable. */
  predicate Wakes(st: seq<PState>, w: seq<PState>) {
    |w| == |st| && forall i :: 0 <= i < |st| ==> w[i] == st[i] || (st[i].Sleeping? && w[i].Runnable?)
  }

  lemma {:induction false} WokenFamily(st: seq<PState>, w: seq<PState>, pc: seq<Pc>, parent: seq<int>,
                                       filling: seq<int>)
    requires Wakes(st, w) && ParentsOk(st, parent) && FillsOk(st, parent, filling) && WaitersOk(st, pc, parent)
    ensures ParentsOk(w, parent) && FillsOk(w, parent, filling) && WaitersOk(w, pc, parent)
  {
  }

  lemma {:induction false} WokenPlaces(st: seq<PState>, w: seq<PState>, pc: seq<Pc>, chan: seq<Chan>)
    requires Wakes(st, w) && PlacesOk(st, pc, chan)
    ensures PlacesOk(w, pc, chan)
  {
    forall p | 0 <= p < |w| ensures PlaceOk(w[p], pc[p], chan[p], p) {
      assert PlaceOk(st[p], pc[p], chan[p], p);
    }
  }

  lemma {:induction false} WokenLocks(st: seq<PState>, w: seq<PState>, pc: seq<Pc>, on: seq<int>, cpu: seq<int>,
                                      locks: seq<Holder>)
    requires Wakes(st, w) && 0 < |locks| && CpuOk(st, on, cpu) && PtableOk(st, pc, cpu, locks[PTABLE]) &&
      SleepLocks(st, pc, locks)
    ensures CpuOk(w, on, cpu) && PtableOk(w, pc, cpu, locks[PTABLE]) && SleepLocks(w, pc, locks)
  {
  }

  lemma {:induction false} Woken(s: State, w: seq<PState>)
    requires Inv(s) && Wakes(s.st, w)
    ensures Inv(s.(st := w))
  {
    WokenFamily(s.st, w, s.pc, s.parent, s.filling);
    WokenPlaces(s.st, w, s.pc, s.chan);
    WokenLocks(s.st, w, s.pc, s.on, s.cpu, s.locks);
  }

  // ---------- exit, wait and fork ----------

  /** The table as exit() leaves it, before p itself becomes a zombie. */
  function Notified(st: seq<PState>, chan: seq<Chan>, parent: seq<int>, p: nat): (w: seq<PState>)
    requires |chan| == |parent| == |st| && p < |st|
    ensures |w| == |st| && w[p := Zombie] == Exited(st, chan, parent, p, INIT)
  {
    var woken := Wake(st, chan, Self(parent[p]));
    if HasZombie(woken, parent, p, |st|) then Wake(woken, chan, Self(INIT)) else woken
  }

  lemma {:induction false} NotifiedWakes(st: seq<PState>, chan: seq<Chan>, parent: seq<int>, p: nat)
    requires |chan| == |parent| == |st| && p < |st|
    ensures Wakes(st, Notified(st, chan, parent, p))
  {
  }

  lemma {:induction false} ExitParents(st: seq<PState>, parent: seq<int>, p: nat)
    requires ParentsOk(st, parent) && 0 < p < |st| && Live(st[p])
    ensures ParentsOk(st[p := Zombie], Adopt(parent, p, INIT))
  {
  }

  lemma {:induction false} ExitFills(st: seq<PState>, parent: seq<int>, filling: seq<int>, p: nat)
    requires FillsOk(st, parent, filling) && p < |st| && Live(st[p]) && filling[p] == -1
    ensures FillsOk(st[p := Zombie], Adopt(parent, p, INIT), filling)
  {
  }

  /** After exit's wakeups neither the parent nor, if it inherits a zombie, init sleeps in wait. */
  lemma {:induction false} ExitWaiters(st: seq<PState>, pc: seq<Pc>, chan: seq<Chan>, parent: seq<int>, p: nat)
    requires PlacesOk(st, pc, chan) && ParentsOk(st, parent) && WaitersOk(st, pc, parent) && 0 < p < |st| && Live(st[p])
    ensures WaitersOk(Notified(st, chan, parent, p)[p := Zombie], pc, Adopt(parent, p, INIT))
  {
    var w := Notified(st, chan, parent, p);
    var adopted := Adopt(parent, p, INIT);
    var woken := Wake(st, chan, Self(parent[p]));
    assert forall i :: 0 <= i < |st| ==> PlaceOk(st[i], pc[i], chan[i], i);
    assert Wakes(st, w) && Wakes(woken, w);
    forall q | 0 <= q < |st| && w[p := Zombie][q].Zombie? && 0 <= adopted[q] < |st|
      ensures !(w[p := Zombie][adopted[q]].Sleeping? && pc[adopted[q]].WaitBack?)
    {
      if parent[q] == p {
        assert ZombieChild(woken, parent, p, q);
      }
    }
  }

  lemma {:induction false} StepDoExit(s: State, p: nat)
    requires Inv(s) && At(s, p, ExitReady) && 0 <= s.on[p] < |s.cpu|
    ensures Inv(Exit(s, p))
  {
    var w := Notified(s.st, s.chan, s.parent, p);
    ExitWaiters(s.st, s.pc, s.chan, s.parent, p);
    NotifiedWakes(s.st, s.chan, s.parent, p);
    Woken(s, w);
    ExitParents(w, s.parent, p);
    ExitFills(w, s.parent, s.filling, p);
    CpuLeaves(w, s.on, s.cpu, p, Zombie);
    PtableLeaves(w, s.pc, s.cpu, p, Zombie, s.pc[p], s.on[p]);
    SleepLocksLeave(w, s.pc, s.locks, p, Zombie, s.pc[p], ByCpu(s.on[p]));
    PlacesAt(w, s.pc, s.chan, p, Zombie, s.pc[p], s.chan[p]);
    assert s.pc[p := s.pc[p]] == s.pc && s.chan[p := s.chan[p]] == s.chan;
  }

  /** A slot that does not run changes its state without running. */
  lemma {:induction false} SlotAside(s: State, i: nat, x: PState, y: Pc)
    requires Inv(s) && i < |s.st| && !s.st[i].Running? && !x.Running? && !HasLk(y) && !y.ExitReady? &&
      (y == Fresh || y == s.pc[i])
    requires PlaceOk(x, y, s.chan[i], i)
    ensures var st, pc := s.st[i := x], s.pc[i := y];
      CpuOk(st, s.on, s.cpu) && PtableOk(st, pc, s.cpu, s.locks[PTABLE]) && SleepLocks(st, pc, s.locks) &&
        LksOk(pc, |s.locks|) && PlacesOk(st, pc, s.chan)
  {
    SlotCpu(s.st, s.on, s.cpu, i, x);
    SlotPtable(s.st, s.pc, s.cpu, i, x, y, s.locks[PTABLE]);
    SlotLocks(s.st, s.pc, s.locks, i, x, y);
    PlacesAt(s.st, s.pc, s.chan, i, x, y, s.chan[i]);
    assert s.chan[i := s.chan[i]] == s.chan;
  }

  lemma {:induction false} SlotCpu(st: seq<PState>, on: seq<int>, cpu: seq<int>, i: nat, x: PState)
    requires CpuOk(st, on, cpu) && i < |st| && !st[i].Running? && !x.Running?
    ensures CpuOk(st[i := x], on, cpu)
  {
  }

  lemma {:induction false} SlotPtable(st: seq<PState>, pc: seq<Pc>, cpu: seq<int>, i: nat, x: PState, y: Pc,
                                      holder: Holder)
    requires PtableOk(st, pc, cpu, holder) && i < |st| && !st[i].Running? && !x.Running?
    ensures PtableOk(st[i := x], pc[i := y], cpu, holder)
  {
  }

  lemma {:induction false} SlotLocks(st: seq<PState>, pc: seq<Pc>, locks: seq<Holder>, i: nat, x: PState, y: Pc)
    requires SleepLocks(st, pc, locks) && LksOk(pc, |locks|) && i < |st| && !x.Running? && !HasLk(y)
    ensures SleepLocks(st[i := x], pc[i := y], locks) && LksOk(pc[i := y], |locks|)
  {
  }

  /** A zombie's slot is freed. */
  lemma {:induction false} Freed(s: State, q: nat, killed: seq<bool>)
    requires Inv(s) && q < |s.st| && s.st[q].Zombie? && |killed| == |s.killed|
    ensures Inv(s.(st := s.st[q := Unused], parent := s.parent[q := -1], killed := killed))
  {
    SlotCpu(s.st, s.on, s.cpu, q, Unused);
    SlotPtable(s.st, s.pc, s.cpu, q, Unused, s.pc[q], s.locks[PTABLE]);
    PlacesAt(s.st, s.pc, s.chan, q, Unused, s.pc[q], s.chan[q]);
    assert s.chan[q := s.chan[q]] == s.chan && s.pc[q := s.pc[q]] == s.pc;
    FreedFamily(s.st, s.pc, s.parent, s.filling, q);
  }

  lemma {:induction false} FreedFamily(st: seq<PState>, pc: seq<Pc>, parent: seq<int>, filling: seq<int>, q: nat)
    requires ParentsOk(st, parent) && WaitersOk(st, pc, parent) && FillsOk(st, parent, filling) && q < |st| &&
      st[q].Zombie?
    ensures ParentsOk(st[q := Unused], parent[q := -1]) && WaitersOk(st[q := Unused], pc, parent[q := -1])
    ensures FillsOk(st[q := Unused], parent[q := -1], filling)
  {
  }

  lemma {:induction false} StepDoWait(s: State, p: nat)
    requires Inv(s) && At(s, p, WaitReady) && 0 <= s.on[p] < |s.cpu|
    ensures Inv(Wait(s, p))
  {
    var q := FirstZombie(s.st, s.parent, p, 0);
    if q < |s.st| || p !in s.parent || s.killed[p] {
      Handed(s, p, Plain, s.chan[p]);
      assert s.chan[p := s.chan[p]] == s.chan;
      if q < |s.st| {
        Freed(Moved(s, p, Plain, Free), q, s.killed[q := false]);
      }
    } else {
      Switched(s, p, Sleeping, WaitBack, Self(p));
    }
  }

  lemma {:induction false} AllocFamily(st: seq<PState>, pc: seq<Pc>, parent: seq<int>, filling: seq<int>, p: nat,
                                       i: nat)
    requires ParentsOk(st, parent) && WaitersOk(st, pc, parent) && FillsOk(st, parent, filling) && ExitsOk(pc, filling)
    requires p < |st| && i < |st| && st[i].Unused? && Live(st[p]) && filling[p] == -1 && pc[p] == Plain
    ensures ParentsOk(st[i := Embryo], parent) && WaitersOk(st[i := Embryo], pc[i := Fresh], parent)
    ensures FillsOk(st[i := Embryo], parent, filling[p := i]) && ExitsOk(pc[i := Fresh], filling[p := i])
  {
  }

  lemma {:induction false} StepForkAlloc(s: State, p: nat, i: nat)
    requires Inv(s) && ForkEnabled(s, ForkAlloc(p, i))
    ensures Inv(ForkNext(s, ForkAlloc(p, i)))
  {
    SlotAside(s, i, Embryo, Fresh);
    AllocFamily(s.st, s.pc, s.parent, s.filling, p, i);
  }

  /** fork() is done with the embryo: it goes back, or it starts. */
  lemma {:induction false} FillDone(st: seq<PState>, pc: seq<Pc>, parent: seq<int>, filling: seq<int>, p: nat, i: nat,
                                    x: PState)
    requires ParentsOk(st, parent) && WaitersOk(st, pc, parent) && FillsOk(st, parent, filling) && ExitsOk(pc, filling)
    requires p < |st| && i < |st| && filling[p] == i && (if parent[i] == -1 then x == Unused else x == Runnable)
    ensures ParentsOk(st[i := x], parent) && WaitersOk(st[i := x], pc, parent)
    ensures FillsOk(st[i := x], parent, filling[p := -1]) && ExitsOk(pc, filling[p := -1])
  {
  }

  lemma {:induction false} StepFillDone(s: State, p: nat, x: PState)
    requires Inv(s) && Fills(s, p) && (if s.parent[s.filling[p]] == -1 then x == Unused else x == Runnable)
    ensures Inv(s.(st := s.st[s.filling[p] := x], filling := s.filling[p := -1]))
  {
    var i := s.filling[p];
    assert PlaceOk(s.st[i], s.pc[i], s.chan[i], i);
    SlotAside(s, i, x, Fresh);
    assert s.pc[i := Fresh] == s.pc;
    FillDone(s.st, s.pc, s.parent, s.filling, p, i, x);
  }

  lemma {:induction false} StepForkParent(s: State, p: nat)
    requires Inv(s) && ForkEnabled(s, ForkParent(p))
    ensures Inv(s.(parent := s.parent[s.filling[p] := p]))
  {
    ParentFamily(s.st, s.pc, s.parent, s.filling, p, s.filling[p]);
  }

  lemma {:induction false} ParentFamily(st: seq<PState>, pc: seq<Pc>, parent: seq<int>, filling: seq<int>, p: nat,
                                        i: nat)
    requires ParentsOk(st, parent) && WaitersOk(st, pc, parent) && FillsOk(st, parent, filling) && p < |st| &&
      i < |st| && filling[p] == i
    ensures ParentsOk(st, parent[i := p]) && WaitersOk(st, pc, parent[i := p]) && FillsOk(st, parent[i := p], filling)
  {
  }

  /** Every step keeps the invariant. */
  lemma {:induction false} StepInv(s: State, e: Event)
    requires Inv(s) && Enabled(s, e)
    ensures Inv(Next(s, e)) && |Next(s, e).st| == |s.st|
  {
    match e
    case Cpu(x) => StepCpu(s, x);
    case Lock(x) => StepLock(s, x);
    case Call(x) => StepCall(s, x);
    case Turn(x) => StepTurn(s, x);
    case Off(x) => StepOff(s, x);
    case Rouse(x) => StepWake(s, x);
    case Fork(x) => StepFork(s, x);
  }

  lemma {:induction false} StepCpu(s: State, e: CpuEvent)
    requires Inv(s) && CpuEnabled(s, e)
    ensures Inv(CpuNext(s, e)) && |CpuNext(s, e).st| == |s.st|
  {
    match e
    case SchedLock(c) => SchedHolds(s, ByCpu(c));
    case SchedPick(c, i) => StepPick(s, c, i);
    case SchedUnlock(c) => SchedHolds(s, Free);
  }

  lemma {:induction false} StepFork(s: State, e: ForkEvent)
    requires Inv(s) && ForkEnabled(s, e)
    ensures Inv(ForkNext(s, e)) && |ForkNext(s, e).st| == |s.st|
  {
    match e
    case ForkAlloc(p, i) => StepForkAlloc(s, p, i);
    case ForkFail(p) => StepFillDone(s, p, Unused);
    case ForkParent(p) => StepForkParent(s, p);
    case ForkRun(p) => StepFillDone(s, p, Runnable);
  }

  lemma {:induction false} StepCall(s: State, e: CallEvent)
    requires Inv(s) && CallEnabled(s, e)
    ensures Inv(CallNext(s, e)) && |CallNext(s, e).st| == |s.st|
  {
    match e
    case CallYield(p) => Entered(s, p, if s.pc[p].Plain? then YieldReady else PauseReady(s.pc[p].lk));
    case CallWakeup(p, ch) => Entered(s, p, WakeReady(ch));
    case CallExit(p) => Entered(s, p, ExitReady);
    case CallWait(p) => Entered(s, p, WaitReady);
  }

  lemma {:induction false} Entered(s: State, p: nat, y: Pc)
    requires Inv(s) && Runs(s, p) && PtableFree(s) && InPtable(y) && !y.SleepBoth? &&
      (HasLk(y) ==> 0 < y.lk < |s.locks|)
    requires y.ExitReady? ==> s.filling[p] == -1 && p != INIT
    ensures Inv(Moved(s, p, y, ByProc(p)))
  {
    Handed(s, p, y, s.chan[p]);
    assert s.chan[p := s.chan[p]] == s.chan;
  }

  lemma {:induction false} StepTurn(s: State, e: TurnEvent)
    requires Inv(s) && TurnEnabled(s, e)
    ensures Inv(TurnNext(s, e)) && |TurnNext(s, e).st| == |s.st|
  {
    hide CpuOk, PlacesOk, ParentsOk, WaitersOk, FillsOk;
    match e
    case SleepLock(p) =>
      Handed(s, p, SleepBoth(s.pc[p].ch, s.pc[p].lk), s.chan[p]);
      assert s.chan[p := s.chan[p]] == s.chan;
    case SleepTidy(p) => Handed(s, p, Reacquire(s.pc[p].lk), NoChan);
    case Go(p) => StepGo(s, p);
    case WaitAgain(p) =>
      Handed(s, p, WaitReady, NoChan);
      assert s.locks[PTABLE := ByProc(p)] == s.locks;
  }

  lemma {:induction false} StepGo(s: State, p: nat)
    requires Inv(s) && Runs(s, p) && (s.pc[p].YieldBack? || s.pc[p].PauseBack? || s.pc[p].Fresh?)
    ensures Inv(Moved(s, p, if s.pc[p].PauseBack? then Reacquire(s.pc[p].lk) else Plain, Free))
  {
    Handed(s, p, if s.pc[p].PauseBack? then Reacquire(s.pc[p].lk) else Plain, s.chan[p]);
    assert s.chan[p := s.chan[p]] == s.chan;
  }

  lemma {:induction false} StepLock(s: State, e: LockEvent)
    requires Inv(s) && LockEnabled(s, e)
    ensures Inv(LockNext(s, e)) && |LockNext(s, e).st| == |s.st|
  {
    var n := LockNext(s, e);
    var l := if e.Acquire? || e.Release? then e.l else if e.CallSleep? then e.lk else s.pc[e.p].lk;
    OtherLock(s, e.p, n.pc[e.p], l, n.locks[l]);
    assert s.pc[e.p := s.pc[e.p]] == s.pc && s.locks[l := s.locks[l]] == s.locks;
  }

  lemma {:induction false} StepOff(s: State, e: OffEvent)
    requires Inv(s) && OffEnabled(s, e)
    ensures Inv(OffNext(s, e)) && |OffNext(s, e).st| == |s.st|
  {
    match e
    case SleepSwitch(p) => Switched(s, p, Sleeping, SleepBack(s.pc[p].ch, s.pc[p].lk), s.pc[p].ch);
    case YieldSwitch(p) =>
      Switched(s, p, Runnable, if s.pc[p].YieldReady? then YieldBack else PauseBack(s.pc[p].lk), s.chan[p]);
      assert s.chan[p := s.chan[p]] == s.chan;
    case DoExit(p) => StepDoExit(s, p);
    case DoWait(p) => StepDoWait(s, p);
  }

  lemma {:induction false} StepWake(s: State, e: WakeEvent)
    requires Inv(s) && WakeEnabled(s, e)
    ensures Inv(WakeNext(s, e)) && |WakeNext(s, e).st| == |s.st|
  {
    var n := WakeNext(s, e);
    assert Wakes(s.st, n.st);
    Woken(s, n.st);
    if e.DoWakeup? {
      Handed(s.(st := n.st), e.p, Plain, s.chan[e.p]);
      assert s.chan[e.p := s.chan[e.p]] == s.chan;
    }
  }

  ghost predicate Run(s: State, es: seq<Event>, t: State)
    decreases |es|
  {
    if es == [] then s == t else Sizes(s) && Enabled(s, es[0]) && Run(Next(s, es[0]), es[1..], t)
  }

  lemma {:induction false} InitInv(n: nat, cpus: nat, locks: nat)
    requires n > 0
    ensures Inv(Init(n, cpus, locks))
  {
  }

  lemma {:induction false} RunInv(s: State, es: seq<Event>, t: State)
    requires Inv(s) && Run(s, es, t)
    ensures Inv(t) && |t.st| == |s.st|
    decreases |es|
  {
    if es != [] {
      StepInv(s, es[0]);
      RunInv(Next(s, es[0]), es[1..], t);
    }
  }

  ghost predicate CpusMatch(t: State)
    requires Sizes(t)
  {
    && (forall p :: 0 <= p < |t.st| && t.st[p].Running? ==> 0 <= t.on[p] < |t.cpu| && t.cpu[t.on[p]] == p)
    && (forall c :: 0 <= c < |t.cpu| && t.cpu[c] != -1 ==>
         0 <= t.cpu[c] < |t.st| && t.st[t.cpu[c]].Running? && t.on[t.cpu[c]] == c)
  }

  ghost predicate ParentsLive(t: State)
    requires Sizes(t)
  {
    forall q :: 0 < q < |t.st| && (Live(t.st[q]) || t.st[q].Zombie?) ==>
      0 <= t.parent[q] < |t.st| && Live(t.st[t.parent[q]])
  }

  ghost predicate NoVainWait(t: State)
    requires Sizes(t)
  {
    forall p, q :: 0 <= p < |t.st| && t.st[p].Sleeping? && t.pc[p].WaitBack? ==> !ZombieChild(t.st, t.parent, p, q)
  }

  lemma {:induction false} TableFacts(t: State)
    requires Inv(t)
    ensures CpusMatch(t) && ParentsLive(t) && NoVainWait(t)
  {
  }

  /** In every reachable state, whether or not ptable.lock is free: running processes match CPUs one
      to one, no live process or zombie has a zombie or freed parent, and nobody sleeps in wait()
      while it has a zombie child. */
  lemma {:induction false} TableOk(n: nat, cpus: nat, locks: nat, es: seq<Event>, t: State)
    requires n > 0 && Run(Init(n, cpus, locks), es, t)
    ensures Sizes(t) && CpusMatch(t) && ParentsLive(t) && NoVainWait(t)
  {
    InitInv(n, cpus, locks);
    RunInv(Init(n, cpus, locks), es, t);
    TableFacts(t);
  }

  // ---------- the life of a process ----------

  predicate HasChild(s: State, p: nat) {
    exists q :: 0 <= q < |s.parent| && s.parent[q] == p
  }

  /** wait() has freed zombie child q and nothing else. */
  predicate Reaped(s: State, q: nat, n: State)
    requires Sizes(s)
  {
    && q < |s.st| && n.st == s.st[q := Unused] && n.parent == s.parent[q := -1] && n.killed == s.killed[q := false]
    && n.chan == s.chan && n.on == s.on && n.cpu == s.cpu && n.filling == s.filling
  }

  /** p sleeps on ch at place pc, and its CPU is back in the scheduler with ptable.lock; the table is
      otherwise as it was. */
  predicate Asleep(s: State, p: nat, ch: Chan, pc: Pc, n: State)
    requires Sizes(s) && p < |s.st| && 0 <= s.on[p] < |s.cpu|
  {
    && n.st == s.st[p := Sleeping] && n.chan == s.chan[p := ch] && n.pc == s.pc[p := pc]
    && n.parent == s.parent && n.killed == s.killed && n.filling == s.filling
    && n.on == s.on[p := -1] && n.cpu == s.cpu[s.on[p] := -1] && n.locks == s.locks[PTABLE := ByCpu(s.on[p])]
  }

  /** wait() returns exactly when it has a zombie child, which it frees, or no child, or is killed;
      otherwise it sleeps on itself. */
  lemma {:induction false} WaitExactly(s: State, p: nat)
    requires Sizes(s) && Enabled(s, Off(DoWait(p)))
    ensures var n, zombie := Next(s, Off(DoWait(p))), HasZombie(s.st, s.parent, p, |s.st|);
      && |n.pc| == |s.pc| && (n.pc[p] == Plain <==> zombie || !HasChild(s, p) || s.killed[p])
      && (n.pc[p] == Plain ==> n.pc == s.pc[p := Plain] && n.locks == s.locks[PTABLE := Free])
      && (zombie ==> exists q: nat :: ZombieChild(s.st, s.parent, p, q) && Reaped(s, q, n))
      && (!zombie && n.pc[p] == Plain ==> n == s.(pc := n.pc, locks := n.locks))
      && (n.pc[p] != Plain ==> Asleep(s, p, Self(p), WaitBack, n))
  {
    var q := FirstZombie(s.st, s.parent, p, 0);
    var n := Next(s, Off(DoWait(p)));
    if q < |s.st| {
      assert ZombieChild(s.st, s.parent, p, q) && Reaped(s, q, n);
    } else {
      assert !HasZombie(s.st, s.parent, p, |s.st|);
      assert p in s.parent <==> HasChild(s, p);
    }
  }

  /** sleep() sleeps, on the channel it was given. */
  lemma {:induction false} SleepSleeps(s: State, p: nat)
    requires Sizes(s) && Enabled(s, Off(SleepSwitch(p)))
    ensures Asleep(s, p, s.pc[p].ch, SleepBack(s.pc[p].ch, s.pc[p].lk), Next(s, Off(SleepSwitch(p))))
  {
  }

  /** Does this step wake those who sleep on ch? */
  predicate Rouses(s: State, e: Event, ch: Chan)
    requires Sizes(s) && Enabled(s, e)
  {
    || (e.Rouse? && WakesOn(s, e.wake, ch))
    || (e.Off? && e.off.DoExit? && (ch == Self(s.parent[e.off.p]) ||
                                    (ch == Self(INIT) && HasZombie(s.st, s.parent, e.off.p, |s.st|))))
  }

  /** The step that takes a process out of state x, and where to: the arrows of its life. */
  predicate Arrow(s: State, e: Event, q: nat, x: PState, y: PState)
    requires Sizes(s) && Enabled(s, e) && q < |s.st|
  {
    match x
    case Unused => y.Embryo? && e.Fork? && e.fork.ForkAlloc? && e.fork.i == q
    case Embryo =>
      && e.Fork? && !e.fork.ForkAlloc? && s.filling[e.fork.p] == q
      && ((y.Unused? && e.fork.ForkFail?) || (y.Runnable? && e.fork.ForkRun?))
    case Runnable => y.Running? && e.Cpu? && e.cpu.SchedPick? && e.cpu.i == q
    case Running =>
      && e.Off? && e.off.p == q
      && (e.off.SleepSwitch? ==> y.Sleeping?) && (e.off.YieldSwitch? ==> y.Runnable?) && (e.off.DoExit? ==> y.Zombie?)
      && (e.off.DoWait? ==>
            y.Sleeping? && !HasZombie(s.st, s.parent, q, |s.st|) && HasChild(s, q) && !s.killed[q])
    case Sleeping => y.Runnable? && (Rouses(s, e, s.chan[q]) || e == Rouse(Kill(q)))
    case Zombie =>
      && y.Unused? && e.Off? && e.off.DoWait? && s.parent[q] == e.off.p
      && forall k :: 0 <= k < q ==> !ZombieChild(s.st, s.parent, e.off.p, k)
  }

  /** Every step takes exactly the processes with an arrow along it: sleepers sleep until they are
      woken or killed, zombies stay until their parent waits, and nobody else moves. */
  lemma {:induction false} LifeCycle(s: State, e: Event, q: nat, y: PState)
    requires Inv(s) && Enabled(s, e) && q < |s.st| && y != s.st[q]
    ensures |Next(s, e).st| == |s.st| && (Next(s, e).st[q] == y <==> Arrow(s, e, q, s.st[q], y))
  {
    hide Inv, CpuOk, Wait, Exit, FirstZombie, Arrow, CpuNext, WakeNext, OffNext, ForkNext, LockNext, CallNext, TurnNext;
    InvSizes(s);
    match e
    case Off(x) => LifeOff(s, x, q, y);
    case Fork(x) => LifeFork(s, x, q, y);
    case Rouse(x) => LifeWake(s, x, q, y);
    case Cpu(x) => LifeCpu(s, x, q, y);
    case Lock(x) => LifeCalm(s, e, q, y);
    case Call(x) => LifeCalm(s, e, q, y);
    case Turn(x) => LifeCalm(s, e, q, y);
  }

  lemma {:induction false} LifeCpu(s: State, e: CpuEvent, q: nat, y: PState)
    requires Sizes(s) && CpuEnabled(s, e) && q < |s.st| && y != s.st[q]
    ensures |CpuNext(s, e).st| == |s.st| && (CpuNext(s, e).st[q] == y <==> Arrow(s, Cpu(e), q, s.st[q], y))
  {
    hide HasZombie, HasChild;
  }

  lemma {:induction false} LifeWake(s: State, e: WakeEvent, q: nat, y: PState)
    requires Sizes(s) && WakeEnabled(s, e) && q < |s.st| && y != s.st[q]
    ensures |WakeNext(s, e).st| == |s.st| && (WakeNext(s, e).st[q] == y <==> Arrow(s, Rouse(e), q, s.st[q], y))
  {
    hide HasZombie, HasChild;
  }

  lemma {:induction false} LifeCalm(s: State, e: Event, q: nat, y: PState)
    requires Sizes(s) && Enabled(s, e) && (e.Lock? || e.Call? || e.Turn?) && q < |s.st| && y != s.st[q]
    ensures Next(s, e).st == s.st && !Arrow(s, e, q, s.st[q], y)
  {
    hide HasZombie, HasChild;
  }

  lemma {:induction false} InvSizes(s: State)
    requires Inv(s)
    ensures Sizes(s) && FillsOk(s.st, s.parent, s.filling)
  {
  }

  lemma {:induction false} LifeFork(s: State, e: ForkEvent, q: nat, y: PState)
    requires Sizes(s) && FillsOk(s.st, s.parent, s.filling) && ForkEnabled(s, e) && q < |s.st| && y != s.st[q]
    ensures |ForkNext(s, e).st| == |s.st| && (ForkNext(s, e).st[q] == y <==> Arrow(s, Fork(e), q, s.st[q], y))
  {
    hide Wait, Exit, HasZombie;
  }

  lemma {:induction false} LifeOff(s: State, e: OffEvent, q: nat, y: PState)
    requires Sizes(s) && OffEnabled(s, e) && q < |s.st| && y != s.st[q]
    ensures |OffNext(s, e).st| == |s.st| && (OffNext(s, e).st[q] == y <==> Arrow(s, Off(e), q, s.st[q], y))
  {
    hide Wait, Exit, HasZombie, HasChild;
    match e
    case SleepSwitch(p) =>
    case YieldSwitch(p) =>
    case DoExit(p) => LifeExit(s, p, q);
    case DoWait(p) => LifeWait(s, p, q);
  }

  lemma {:induction false} LifeWait(s: State, p: nat, q: nat)
    requires Sizes(s) && OffEnabled(s, DoWait(p)) && q < |s.st|
    ensures |Wait(s, p).st| == |s.st|
    ensures Wait(s, p).st[q] ==
      if ZombieChild(s.st, s.parent, p, q) && (forall k :: 0 <= k < q ==> !ZombieChild(s.st, s.parent, p, k))
        then Unused
      else if q == p && !HasZombie(s.st, s.parent, p, |s.st|) && HasChild(s, p) && !s.killed[p] then Sleeping
      else s.st[q]
  {
    var z := FirstZombie(s.st, s.parent, p, 0);
    assert z < |s.st| <==> HasZombie(s.st, s.parent, p, |s.st|);
    assert p in s.parent <==> HasChild(s, p);
  }

  lemma {:induction false} LifeExit(s: State, p: nat, q: nat)
    requires Sizes(s) && OffEnabled(s, DoExit(p)) && q < |s.st|
    ensures |Exit(s, p).st| == |s.st|
    ensures Exit(s, p).st[q] ==
      if q == p then Zombie
      else if s.st[q].Sleeping? && Rouses(s, Off(DoExit(p)), s.chan[q]) then Runnable else s.st[q]
  {
    var woken := Wake(s.st, s.chan, Self(s.parent[p]));
    assert forall z :: ZombieChild(woken, s.parent, p, z) <==> ZombieChild(s.st, s.parent, p, z);
  }

  /** In this history nobody wakes up p's channel or kills p. */
  ghost predicate Undisturbed(s: State, es: seq<Event>, p: nat)
    decreases |es|
  {
    es == [] || (Sizes(s) && Enabled(s, es[0]) && p < |s.st| && !Rouses(s, es[0], s.chan[p]) &&
                 es[0] != Rouse(Kill(p)) && Undisturbed(Next(s, es[0]), es[1..], p))
  }

  lemma {:induction false} ChanKept(s: State, e: Event, p: nat)
    requires Sizes(s) && Enabled(s, e) && p < |s.st| && s.st[p].Sleeping?
    ensures Sizes(Next(s, e)) && Next(s, e).chan[p] == s.chan[p]
  {
    hide FirstZombie, Exited, Adopt, Wake, HoldsOnly, HoldsNone, TurnNext, OffNext, ForkNext, WakeNext;
    match e
    case Off(x) => ChanKeptOff(s, x, p);
    case Turn(x) => ChanKeptTurn(s, x, p);
    case Fork(x) => ChanKeptFork(s, x, p);
    case Rouse(x) => ChanKeptWake(s, x, p);
    case _ =>
  }

  lemma {:induction false} ChanKeptFork(s: State, e: ForkEvent, p: nat)
    requires Sizes(s) && ForkEnabled(s, e) && p < |s.st|
    ensures Sizes(ForkNext(s, e)) && ForkNext(s, e).chan[p] == s.chan[p]
  {
  }

  lemma {:induction false} ChanKeptWake(s: State, e: WakeEvent, p: nat)
    requires Sizes(s) && WakeEnabled(s, e) && p < |s.st|
    ensures Sizes(WakeNext(s, e)) && WakeNext(s, e).chan[p] == s.chan[p]
  {
    hide Wake;
  }

  lemma {:induction false} ChanKeptTurn(s: State, e: TurnEvent, p: nat)
    requires Sizes(s) && TurnEnabled(s, e) && p < |s.st| && s.st[p].Sleeping?
    ensures Sizes(TurnNext(s, e)) && TurnNext(s, e).chan[p] == s.chan[p]
  {
  }

  lemma {:induction false} ChanKeptOff(s: State, e: OffEvent, p: nat)
    requires Sizes(s) && OffEnabled(s, e) && p < |s.st| && s.st[p].Sleeping?
    ensures Sizes(OffNext(s, e)) && OffNext(s, e).chan[p] == s.chan[p]
  {
    hide FirstZombie, Exited, Adopt, Wake;
  }

  /** Whoever sleeps goes on sleeping, on the same channel, until it is woken or killed. */
  lemma {:induction false} SleepsOn(s: State, es: seq<Event>, t: State, p: nat)
    requires Inv(s) && Run(s, es, t) && p < |s.st| && s.st[p].Sleeping? && Undisturbed(s, es, p)
    ensures Sizes(t) && p < |t.st| && t.st[p].Sleeping? && t.chan[p] == s.chan[p]
    decreases |es|
  {
    hide Inv, Rouses, Enabled, Next;
    InvSizes(s);
    if es != [] {
      StepInv(s, es[0]);
      if !Next(s, es[0]).st[p].Sleeping? {
        LifeCycle(s, es[0], p, Next(s, es[0]).st[p]);
      }
      ChanKept(s, es[0], p);
      SleepsOn(Next(s, es[0]), es[1..], t, p);
    }
  }

  /** The steps that take or give up lock l, other than ptable.lock: acquire and release, and sleep's
      release and retaking of lk. */
  predicate TakesLock(s: State, e: Event, l: nat, p: nat)
    requires Sizes(s) && Enabled(s, e)
  {
    e == Lock(Acquire(p, l)) || (e == Lock(Retake(p)) && s.pc[p].lk == l)
  }

  predicate GivesLock(s: State, e: Event, l: nat, p: nat)
    requires Sizes(s) && Enabled(s, e)
  {
    e == Lock(Release(p, l)) || (e == Lock(SleepRelease(p)) && s.pc[p].lk == l)
  }

  /** A lock changes hands exactly so: from free to whoever takes it, and from its holder to free. */
  lemma {:induction false} HolderExactly(s: State, e: Event, l: nat)
    requires Inv(s) && Enabled(s, e) && PTABLE < l < |s.locks|
    ensures var n := Next(s, e);
      && |n.locks| == |s.locks|
      && (forall p: nat :: TakesLock(s, e, l, p) ==> s.locks[l].Free? && n.locks[l] == ByProc(p))
      && (forall p: nat :: GivesLock(s, e, l, p) ==> s.locks[l] == ByProc(p) && n.locks[l].Free?)
      && (n.locks[l] != s.locks[l] ==> exists p: nat :: TakesLock(s, e, l, p) || GivesLock(s, e, l, p))
  {
    hide CpuOk, PtableOk, PlacesOk, ParentsOk, WaitersOk, FillsOk, FirstZombie, Exited, Adopt, Wake;
    if e.Lock? {
      var p := e.lock.p;
      assert TakesLock(s, e, l, p) || GivesLock(s, e, l, p) || Next(s, e).locks[l] == s.locks[l];
    }
  }

  /** The step frees q in its parent's wait(). */
  predicate Frees(s: State, e: Event, q: nat)
    requires Sizes(s) && Enabled(s, e) && q < |s.st|
  {
    s.st[q].Zombie? && Arrow(s, e, q, Zombie, Unused)
  }

  /** Who the parent of q is after the step: fork sets it, init inherits it, wait() clears it. */
  function ParentAfter(s: State, e: Event, q: nat): int
    requires Sizes(s) && Enabled(s, e) && q < |s.st|
  {
    if e.Fork? && e.fork.ForkParent? && s.filling[e.fork.p] == q then e.fork.p
    else if e.Off? && e.off.DoExit? && s.parent[q] == e.off.p then INIT
    else if Frees(s, e, q) then -1 else s.parent[q]
  }

  /** The parent of q changes only so; and q is killed from kill() on until it is freed. */
  lemma {:induction false} ParentExactly(s: State, e: Event, q: nat)
    requires Sizes(s) && Enabled(s, e) && q < |s.st|
    ensures var n := Next(s, e);
      && |n.parent| == |s.parent| && |n.killed| == |s.killed| && n.parent[q] == ParentAfter(s, e, q)
      && (n.killed[q] <==> e == Rouse(Kill(q)) || (s.killed[q] && !Frees(s, e, q)))
  {
    hide Exited, Wake, HasZombie, HasChild, Rouses, Wait, FirstZombie;
    if e.Off? {
      ParentOff(s, e.off, q);
    } else {
      assert !Frees(s, e, q);
    }
  }

  lemma {:induction false} ParentOff(s: State, e: OffEvent, q: nat)
    requires Sizes(s) && OffEnabled(s, e) && q < |s.st|
    ensures var n := OffNext(s, e);
      && |n.parent| == |s.parent| && |n.killed| == |s.killed| && n.parent[q] == ParentAfter(s, Off(e), q)
      && (n.killed[q] <==> s.killed[q] && !Frees(s, Off(e), q))
  {
    hide Exited, Wake, HasZombie, HasChild, Rouses, Wait, FirstZombie;
    if e.DoWait? {
      FreedExactly(s, e.p, q);
    }
  }

  lemma {:induction false} FreedExactly(s: State, p: nat, q: nat)
    requires Sizes(s) && OffEnabled(s, DoWait(p)) && q < |s.st|
    ensures var n, freed := Wait(s, p), Frees(s, Off(DoWait(p)), q);
      && |n.parent| == |s.parent| && |n.killed| == |s.killed|
      && n.parent[q] == (if freed then -1 else s.parent[q]) && n.killed[q] == (s.killed[q] && !freed)
  {
    var z := FirstZombie(s.st, s.parent, p, 0);
    assert z < |s.st| ==> ZombieChild(s.st, s.parent, p, z);
    assert s.st[q].Zombie? && s.parent[q] == p ==> ZombieChild(s.st, s.parent, p, q) && z <= q;
  }

  // ---------- no lost wakeups ----------

  /** One process, as far as sleep() is concerned. */
  datatype View = View(st: PState, pc: Pc, calls: nat)

  function Of(s: State, p: nat): View
    requires Sizes(s) && p < |s.st|
  {
    View(s.st[p], s.pc[p], s.calls[p])
  }

  predicate InSleep(pc: Pc) { pc.SleepWant? || pc.SleepBoth? || pc.SleepReady? || pc.SleepBack? }

  /** How far a process has come in its call number c of sleep(): 0 while it has lk, 1 from then
      until it has been woken, 2 afterwards. */
  function Stage(v: View, c: nat): nat {
    if v.calls != c then 2
    else if v.st.Sleeping? then 1
    else if !v.st.Running? then 2
    else if v.pc.SleepWant? || v.pc.SleepBoth? then 0
    else if v.pc.SleepReady? then 1
    else 2
  }

  /** Call number c is the call sleep(ch, lk). */
  predicate Tracks(v: View, c: nat, ch: Chan, lk: nat) {
    && c <= v.calls
    && (v.calls == c && InSleep(v.pc) ==> v.pc.ch == ch && v.pc.lk == lk)
    && (v.calls == c && v.st.Sleeping? ==> v.pc.SleepBack?)
  }

  predicate Onward(v: View, n: View, c: nat, ch: Chan, lk: nat) {
    Tracks(n, c, ch, lk) && Stage(v, c) <= Stage(n, c)
  }

  lemma {:induction false} OnwardCpu(s: State, e: CpuEvent, p: nat, c: nat, ch: Chan, lk: nat)
    requires Inv(s) && CpuEnabled(s, e) && p < |s.st| && Tracks(Of(s, p), c, ch, lk)
    ensures Onward(Of(s, p), Of(CpuNext(s, e), p), c, ch, lk)
  {
    assert PlaceOk(s.st[p], s.pc[p], s.chan[p], p);
  }

  lemma {:induction false} OnwardCall(s: State, e: CallEvent, p: nat, c: nat, ch: Chan, lk: nat)
    requires Inv(s) && CallEnabled(s, e) && p < |s.st| && Tracks(Of(s, p), c, ch, lk)
    ensures Onward(Of(s, p), Of(CallNext(s, e), p), c, ch, lk)
  {
  }

  lemma {:induction false} OnwardLock(s: State, e: LockEvent, p: nat, c: nat, ch: Chan, lk: nat)
    requires Inv(s) && LockEnabled(s, e) && p < |s.st| && Tracks(Of(s, p), c, ch, lk)
    ensures Onward(Of(s, p), Of(LockNext(s, e), p), c, ch, lk)
  {
  }

  lemma {:induction false} OnwardTurn(s: State, e: TurnEvent, p: nat, c: nat, ch: Chan, lk: nat)
    requires Inv(s) && TurnEnabled(s, e) && p < |s.st| && Tracks(Of(s, p), c, ch, lk)
    ensures Onward(Of(s, p), Of(TurnNext(s, e), p), c, ch, lk)
  {
  }

  lemma {:induction false} OnwardWake(s: State, e: WakeEvent, p: nat, c: nat, ch: Chan, lk: nat)
    requires Inv(s) && WakeEnabled(s, e) && p < |s.st| && Tracks(Of(s, p), c, ch, lk)
    ensures Onward(Of(s, p), Of(WakeNext(s, e), p), c, ch, lk)
  {
  }

  lemma {:induction false} OnwardFork(s: State, e: ForkEvent, p: nat, c: nat, ch: Chan, lk: nat)
    requires Inv(s) && ForkEnabled(s, e) && p < |s.st| && Tracks(Of(s, p), c, ch, lk)
    ensures Onward(Of(s, p), Of(ForkNext(s, e), p), c, ch, lk)
  {
    assert PlaceOk(s.st[p], s.pc[p], s.chan[p], p);
  }

  lemma {:induction false} OnwardOff(s: State, e: OffEvent, p: nat, c: nat, ch: Chan, lk: nat)
    requires Inv(s) && OffEnabled(s, e) && p < |s.st| && Tracks(Of(s, p), c, ch, lk)
    ensures |OffNext(s, e).st| == |s.st| && Onward(Of(s, p), Of(OffNext(s, e), p), c, ch, lk)
  {
    match e
    case SleepSwitch(q) => {}
    case YieldSwitch(q) => {}
    case DoExit(q) => OnwardExit(s, q, p, c, ch, lk);
    case DoWait(q) => OnwardWait(s, q, p, c, ch, lk);
  }

  lemma {:induction false} OnwardExit(s: State, q: nat, p: nat, c: nat, ch: Chan, lk: nat)
    requires Inv(s) && At(s, q, ExitReady) && 0 <= s.on[q] < |s.cpu| && p < |s.st| && Tracks(Of(s, p), c, ch, lk)
    ensures Onward(Of(s, p), Of(Exit(s, q), p), c, ch, lk)
  {
    NotifiedWakes(s.st, s.chan, s.parent, q);
  }

  lemma {:induction false} OnwardWait(s: State, q: nat, p: nat, c: nat, ch: Chan, lk: nat)
    requires Inv(s) && At(s, q, WaitReady) && 0 <= s.on[q] < |s.cpu| && p < |s.st| && Tracks(Of(s, p), c, ch, lk)
    ensures Onward(Of(s, p), Of(Wait(s, q), p), c, ch, lk)
  {
    hide CpuOk, PtableOk, SleepLocks, WaitersOk, ParentsOk, FillsOk;
  }

  /** Every step brings a process onward in its call of sleep, or leaves it where it is. */
  lemma {:induction false} StepOnward(s: State, e: Event, p: nat, c: nat, ch: Chan, lk: nat)
    requires Inv(s) && Enabled(s, e) && p < |s.st| && Tracks(Of(s, p), c, ch, lk)
    requires Inv(Next(s, e)) && |Next(s, e).st| == |s.st|
    ensures Onward(Of(s, p), Of(Next(s, e), p), c, ch, lk)
  {
    match e
    case Cpu(x) => OnwardCpu(s, x, p, c, ch, lk);
    case Lock(x) => OnwardLock(s, x, p, c, ch, lk);
    case Call(x) => OnwardCall(s, x, p, c, ch, lk);
    case Turn(x) => OnwardTurn(s, x, p, c, ch, lk);
    case Off(x) => OnwardOff(s, x, p, c, ch, lk);
    case Rouse(x) => OnwardWake(s, x, p, c, ch, lk);
    case Fork(x) => OnwardFork(s, x, p, c, ch, lk);
  }

  lemma {:induction false} RunOnward(s: State, es: seq<Event>, t: State, p: nat, c: nat, ch: Chan, lk: nat)
    requires Inv(s) && Run(s, es, t) && p < |s.st| && Tracks(Of(s, p), c, ch, lk)
    ensures Inv(t) && |t.st| == |s.st| && Onward(Of(s, p), Of(t, p), c, ch, lk)
    decreases |es|
  {
    if es != [] {
      StepInv(s, es[0]);
      StepOnward(s, es[0], p, c, ch, lk);
      RunOnward(Next(s, es[0]), es[1..], t, p, c, ch, lk);
    }
  }

  /** Whoever takes lk finds the sleeper past releasing it. */
  lemma {:induction false} LockTaken(s: State, p: nat, c: nat, ch: Chan, lk: nat)
    requires Inv(s) && lk < |s.locks| && s.locks[lk].Free? && p < |s.st| && Tracks(Of(s, p), c, ch, lk)
    ensures Stage(Of(s, p), c) >= 1
  {
  }

  /** The step is a wakeup on ch, by a process or by an interrupt. */
  predicate WakesOn(s: State, e: WakeEvent, ch: Chan) {
    (e.DoWakeup? && e.p < |s.pc| && s.pc[e.p] == WakeReady(ch)) || e == IntrWakeup(ch)
  }

  /** A wakeup on ch reaches a process that has given up lk. */
  lemma {:induction false} WakeupReaches(s: State, e: WakeEvent, p: nat, c: nat, ch: Chan, lk: nat)
    requires Inv(s) && WakeEnabled(s, e) && WakesOn(s, e, ch) && p < |s.st| && Tracks(Of(s, p), c, ch, lk)
    requires Stage(Of(s, p), c) >= 1
    ensures Stage(Of(WakeNext(s, e), p), c) == 2
    ensures s.st[p].Sleeping? && s.calls[p] == c ==> WakeNext(s, e).st[p].Runnable?
  {
    assert PlaceOk(s.st[p], s.pc[p], s.chan[p], p);
  }

  /** The step takes lock lk: by acquire(lk), or at the end of a sleep(). */
  predicate Takes(s: State, e: LockEvent, lk: nat)
    requires Sizes(s)
  {
    (e.Acquire? && e.l == lk) || (e.Retake? && e.p < |s.pc| && s.pc[e.p] == Reacquire(lk))
  }

  /** s1 is s after some process has taken lock lk. */
  ghost predicate LockGoes(s: State, lk: nat, s1: State) {
    exists e :: Sizes(s) && LockEnabled(s, e) && Takes(s, e, lk) && s1 == LockNext(s, e)
  }

  /** t is s after a wakeup on ch. */
  ghost predicate WokenOn(s: State, ch: Chan, t: State) {
    exists e :: Sizes(s) && WakeEnabled(s, e) && WakesOn(s, e, ch) && t == WakeNext(s, e)
  }

  lemma {:induction false} AfterLock(s: State, s1: State, p: nat, c: nat, ch: Chan, lk: nat)
    requires Inv(s) && LockGoes(s, lk, s1) && p < |s.st| && Tracks(Of(s, p), c, ch, lk)
    ensures Inv(s1) && |s1.st| == |s.st| && Tracks(Of(s1, p), c, ch, lk) && Stage(Of(s1, p), c) >= 1
  {
    var e :| LockEnabled(s, e) && Takes(s, e, lk) && s1 == LockNext(s, e);
    LockTaken(s, p, c, ch, lk);
    StepLock(s, e);
    OnwardLock(s, e, p, c, ch, lk);
  }

  /** Process p calls sleep(ch, lk) holding lk.  Once some process has taken lk after that, any later
      wakeup on ch finds p woken or wakes it, in every interleaving: p is not left asleep in that
      call. */
  lemma {:induction false} NoLostWakeup(s: State, p: nat, ch: Chan, lk: nat, es: seq<Event>, s1: State, s2: State,
                                        fs: seq<Event>, s3: State, t: State)
    requires Inv(s) && At(s, p, SleepWant(ch, lk)) && Run(s, es, s1) && LockGoes(s1, lk, s2) && Run(s2, fs, s3) &&
      WokenOn(s3, ch, t)
    ensures p < |t.st| && p < |t.calls| && !(t.st[p].Sleeping? && t.calls[p] == s.calls[p])
    ensures p < |s3.st| && p < |s3.calls| && (s3.st[p].Sleeping? && s3.calls[p] == s.calls[p] ==> t.st[p].Runnable?)
  {
    var c := s.calls[p];
    RunOnward(s, es, s1, p, c, ch, lk);
    AfterLock(s1, s2, p, c, ch, lk);
    RunOnward(s2, fs, s3, p, c, ch, lk);
    var e :| WakeEnabled(s3, e) && WakesOn(s3, e, ch) && t == WakeNext(s3, e);
    WakeupReaches(s3, e, p, c, ch, lk);
  }
}
