/** seqlock.h over spinlock.h: any number of readers and writers, one atomic instruction a step,
    under sequential consistency. */
module SeqLock {

  import opened Words

  /** A writer waits for the lock, has it, writes between its increments, and gives it back.  A
      reader keeps the count it loaded and the cells it has read; start and end are how many
      increments had been made at its first and its last load. */
  datatype Phase =
    | Idle
    | Holding
    | Writing
    | Leaving
    | Reading(value: int, seen: map<nat, int>, start: nat)
    | Accepted(seen: map<nat, int>, start: nat, end: nat)
    | Rejected

  /** The spin-lock word, the count, the protected cells and the threads; and, for the statements
      only, the number of increments, who has the lock, and the contents at each release. */
  datatype State = State(lock: int, count: int, cells: seq<int>, threads: seq<Phase>,
                         ticks: nat, owner: int, versions: seq<seq<int>>)

  datatype Event =
    | Xchg(t: nat)
    | FirstAdd(t: nat)
    | Store(t: nat, i: nat, v: int)
    | SecondAdd(t: nat)
    | Cas(t: nat)
    | ReadLock(t: nat)
    | Load(t: nat, i: nat)
    | ReadUnlock(t: nat)
    | Forget(t: nat)

  function Init(cells: seq<int>, k: nat): State {
    State(0, 0, cells, seq(k, i => Idle), 0, -1, [cells])
  }

  predicate Enabled(s: State, e: Event) {
    e.t < |s.threads| && var p := s.threads[e.t];
    match e {
      case Xchg(_) => p.Idle?
      case FirstAdd(_) => p.Holding?
      case Store(_, i, _) => p.Writing? && i < |s.cells|
      case SecondAdd(_) => p.Writing?
      case Cas(_) => p.Leaving?
      case ReadLock(_) => p.Idle?
      case Load(_, i) => p.Reading? && i < |s.cells|
      case ReadUnlock(_) => p.Reading?
      case Forget(_) => p.Accepted? || p.Rejected?
    }
  }

  function Next(s: State, e: Event): State
    requires Enabled(s, e)
  {
    var t, p := e.t, s.threads[e.t];
    match e {
      case Xchg(_) =>
        if s.lock == 0 then s.(lock := 1, owner := t, threads := s.threads[t := Holding]) else s.(lock := 1)
      case FirstAdd(_) =>
        s.(count := Increment(s.count), ticks := s.ticks + 1, threads := s.threads[t := Writing])
      case Store(_, i, v) =>
        s.(cells := s.cells[i := v])
      case SecondAdd(_) =>
        s.(count := Increment(s.count), ticks := s.ticks + 1, threads := s.threads[t := Leaving],
          versions := s.versions + [s.cells])
      case Cas(_) =>
        if s.lock == 1 then s.(lock := 0, owner := -1, threads := s.threads[t := Idle])
          else s.(threads := s.threads[t := Idle])
      case ReadLock(_) =>
        s.(threads := s.threads[t := Reading(s.count, map[], s.ticks)])
      case Load(_, i) =>
        s.(threads := s.threads[t := Reading(p.value, p.seen[i := s.cells[i]], p.start)])
      case ReadUnlock(_) =>
        var ok := s.count == p.value && s.count % 2 == 0;
        s.(threads := s.threads[t := if ok then Accepted(p.seen, p.start, s.ticks) else Rejected])
      case Forget(_) =>
        s.(threads := s.threads[t := Idle])
    }
  }

  ghost predicate Run(s: State, es: seq<Event>, t: State)
    decreases |es|
  {
    if es == [] then s == t else Enabled(s, es[0]) && Run(Next(s, es[0]), es[1..], t)
  }

  ghost predicate Reachable(cells: seq<int>, k: nat, t: State) {
    exists es :: Run(Init(cells, k), es, t)
  }

  // ---------- the invariant ----------

  predicate HasLock(p: Phase) { p.Holding? || p.Writing? || p.Leaving? }

  /** What a reader has seen is what version v holds. */
  predicate Agrees(seen: map<nat, int>, v: seq<int>) {
    forall i :: i in seen ==> i < |v| && seen[i] == v[i]
  }

  predicate LockOk(s: State) {
    && (s.lock == 0 || s.lock == 1)
    && -1 <= s.owner < |s.threads|
    && (s.lock == 1 <==> s.owner >= 0)
    && (forall i :: 0 <= i < |s.threads| ==> (HasLock(s.threads[i]) <==> i == s.owner))
  }

  predicate CountOk(s: State) {
    && s.count == Wrap(s.ticks)
    && |s.versions| == s.ticks / 2 + 1
    && (s.ticks % 2 == 1 <==> s.owner >= 0 && s.owner < |s.threads| && s.threads[s.owner].Writing?)
    && (s.ticks % 2 == 0 ==> s.cells == s.versions[s.ticks / 2])
  }

  predicate ReaderOk(s: State, p: Phase) {
    && (p.Reading? ==> p.start <= s.ticks && p.value == Wrap(p.start))
    && (p.Reading? && p.start == s.ticks && s.ticks % 2 == 0 && s.ticks / 2 < |s.versions| ==>
      Agrees(p.seen, s.versions[s.ticks / 2]))
    && (p.Accepted? ==> p.start <= p.end <= s.ticks && Wrap(p.start) == Wrap(p.end) && p.end % 2 == 0)
    && (p.Accepted? && p.start == p.end && p.start / 2 < |s.versions| ==> Agrees(p.seen, s.versions[p.start / 2]))
  }

  predicate Readers(s: State) {
    forall i :: 0 <= i < |s.threads| ==> ReaderOk(s, s.threads[i])
  }

  predicate Inv(s: State) {
    LockOk(s) && CountOk(s) && Readers(s)
  }

  lemma {:induction false} StepInv(s: State, e: Event)
    requires Inv(s) && Enabled(s, e)
    ensures Inv(Next(s, e))
  {
    WrapEven(s.ticks);
    assert ReaderOk(s, s.threads[e.t]);
    StepLock(s, e);
    StepCount(s, e);
    StepReaders(s, e);
  }

  lemma {:induction false} StepLock(s: State, e: Event)
    requires Inv(s) && Enabled(s, e)
    ensures LockOk(Next(s, e))
  {
  }

  lemma {:induction false} StepCount(s: State, e: Event)
    requires Inv(s) && Enabled(s, e)
    ensures CountOk(Next(s, e))
  {
    assert HasLock(s.threads[e.t]) <==> e.t == s.owner;
    WrapNext(s.ticks);
  }

  lemma {:induction false} StepReaders(s: State, e: Event)
    requires Inv(s) && Enabled(s, e)
    ensures Readers(Next(s, e))
  {
    WrapEven(s.ticks);
    var n := Next(s, e);
    forall i | 0 <= i < |n.threads| ensures ReaderOk(n, n.threads[i]) {
      assert ReaderOk(s, s.threads[i]);
    }
  }

  lemma {:induction false} RunInv(s: State, es: seq<Event>, t: State)
    requires Inv(s) && Run(s, es, t)
    ensures Inv(t)
    decreases |es|
  {
    if es != [] {
      StepInv(s, es[0]);
      RunInv(Next(s, es[0]), es[1..], t);
    }
  }

  // ---------- what the lock promises ----------

  /** The count is odd exactly while a writer is between its two increments, and then it is the one
      thread that has the lock. */
  lemma {:induction false} OddWhileWriting(cells: seq<int>, k: nat, t: State)
    requires Reachable(cells, k, t)
    ensures t.count % 2 == 1 <==> exists i :: 0 <= i < |t.threads| && t.threads[i].Writing?
    ensures forall i, j ::
      0 <= i < |t.threads| && 0 <= j < |t.threads| && HasLock(t.threads[i]) && HasLock(t.threads[j]) ==> i == j
  {
    var es :| Run(Init(cells, k), es, t);
    RunInv(Init(cells, k), es, t);
    WrapEven(t.ticks);
    assert forall i :: 0 <= i < |t.threads| && t.threads[i].Writing? ==> HasLock(t.threads[i]);
  }

  /** Reader p was not misled: all it read is in the version that was current when it began. */
  predicate Snapshot(s: State, p: Phase) {
    p.Accepted? ==> p.start % 2 == 0 && p.start / 2 < |s.versions| && Agrees(p.seen, s.versions[p.start / 2])
  }

  /** An accepted read is a snapshot, unless the count went once round its 64 bits meanwhile. */
  lemma {:induction false} AcceptedIsSnapshot(cells: seq<int>, k: nat, t: State, i: nat)
    requires Reachable(cells, k, t) && i < |t.threads| && t.threads[i].Accepted?
    requires t.threads[i].end - t.threads[i].start < WORD
    ensures Snapshot(t, t.threads[i])
  {
    var es :| Run(Init(cells, k), es, t);
    RunInv(Init(cells, k), es, t);
    assert ReaderOk(t, t.threads[i]);
    WrapSame(t.threads[i].start, t.threads[i].end);
  }

  /** A read that is rejected overlapped a writer: a read with no increment since an even count is
      accepted. */
  lemma {:induction false} QuietReadAccepted(cells: seq<int>, k: nat, s: State, t: nat)
    requires Reachable(cells, k, s) && Enabled(s, ReadUnlock(t))
    requires s.threads[t].start == s.ticks && s.ticks % 2 == 0
    ensures Next(s, ReadUnlock(t)).threads[t].Accepted?
  {
    var es :| Run(Init(cells, k), es, s);
    RunInv(Init(cells, k), es, s);
    assert ReaderOk(s, s.threads[t]);
    WrapEven(s.ticks);
  }

  // ---------- why the bound on increments is needed ----------

  lemma {:induction false} RunConcat(s: State, es: seq<Event>, t: State, fs: seq<Event>, u: State)
    requires Run(s, es, t) && Run(t, fs, u)
    ensures Run(s, es + fs, u)
    decreases |es|
  {
    if es == [] {
      assert es + fs == fs;
    } else {
      assert (es + fs)[0] == es[0] && (es + fs)[1..] == es[1..] + fs;
      RunConcat(Next(s, es[0]), es[1..], t, fs, u);
    }
  }

  /** Thread 0 read cell 0 as 0 at the start; since then thread 1 has n times made both cells n. */
  function After(n: nat): State {
    State(0, Wrap(2 * n), [n, n], [Reading(0, map[0 := 0], 0), Idle], 2 * n, -1, seq(n + 1, i => [i, i]))
  }

  function WriteBoth(n: nat): seq<Event> {
    [Xchg(1), FirstAdd(1), Store(1, 0, n + 1), Store(1, 1, n + 1), SecondAdd(1), Cas(1)]
  }

  lemma {:induction false} OneMore(n: nat)
    ensures Run(After(n), WriteBoth(n), After(n + 1))
  {
    WrapNext(2 * n);
    WrapNext(2 * n + 1);
    var es := WriteBoth(n);
    var s0 := After(n);
    var s1 := Next(s0, es[0]);
    var s2 := Next(s1, es[1]);
    var s3 := Next(s2, es[2]);
    var s4 := Next(s3, es[3]);
    var s5 := Next(s4, es[4]);
    assert Next(s5, es[5]) == After(n + 1) by {
      assert s4.cells == [n + 1, n + 1];
      assert s5.versions == After(n + 1).versions;
      assert s5.threads[1 := Idle] == After(n + 1).threads;
    }
    assert Run(s5, es[5..], After(n + 1));
    assert es[4..][1..] == es[5..] && es[3..][1..] == es[4..] && es[2..][1..] == es[3..] && es[1..][1..] == es[2..];
    assert Run(s4, es[4..], After(n + 1));
    assert Run(s3, es[3..], After(n + 1));
    assert Run(s2, es[2..], After(n + 1));
    assert Run(s1, es[1..], After(n + 1));
  }

  lemma {:induction false} ManyMore(n: nat) returns (es: seq<Event>)
    ensures Run(Init([0, 0], 2), es, After(n))
  {
    if n == 0 {
      es := [ReadLock(0), Load(0, 0)];
      var s1 := Next(Init([0, 0], 2), es[0]);
      assert Next(s1, es[1]) == After(0) by {
        assert Next(s1, es[1]).threads == After(0).threads;
        assert s1.versions == After(0).versions;
      }
      assert es[1..][1..] == [];
      assert Run(s1, es[1..], After(0));
    } else {
      var fs := ManyMore(n - 1);
      OneMore(n - 1);
      es := fs + WriteBoth(n - 1);
      RunConcat(Init([0, 0], 2), fs, After(n - 1), WriteBoth(n - 1), After(n));
    }
  }

  /** After exactly 2^64 increments a reader that saw two different versions is accepted. */
  lemma {:induction false} WrapMisleads() returns (t: State)
    ensures Reachable([0, 0], 2, t) && |t.threads| == 2 && t.threads[0].Accepted? &&
      t.threads[0].end - t.threads[0].start == WORD
    ensures !Snapshot(t, t.threads[0])
  {
    var n: nat := WORD / 2;
    var fs := ManyMore(n);
    var s := After(n);
    assert Wrap(2 * n) == 0;
    var s1 := Next(s, Load(0, 1));
    t := Next(s1, ReadUnlock(0));
    var gs := [Load(0, 1), ReadUnlock(0)];
    assert gs[1..][1..] == [];
    assert Run(s1, gs[1..], t);
    RunConcat(Init([0, 0], 2), fs, s, gs, t);
    assert Run(Init([0, 0], 2), fs + gs, t);
    assert t.threads[0].seen[1] == n && t.versions[0] == [0, 0];
  }

  /** Reads that span at most w increments are snapshots whenever they are accepted. */
  ghost predicate SafeUpTo(w: nat) {
    forall cells, k: nat, t, i ::
      Reachable(cells, k, t) && 0 <= i < |t.threads| && t.threads[i].Accepted? &&
      t.threads[i].end - t.threads[i].start <= w ==>
        Snapshot(t, t.threads[i])
  }

  lemma {:induction false} SafeExactly(w: nat)
    ensures SafeUpTo(w) <==> w < WORD
  {
    if w < WORD {
      forall cells, k: nat, t, i | Reachable(cells, k, t) && 0 <= i < |t.threads| && t.threads[i].Accepted? &&
        t.threads[i].end - t.threads[i].start <= w
        ensures Snapshot(t, t.threads[i])
      {
        AcceptedIsSnapshot(cells, k, t, i);
      }
    } else {
      var t := WrapMisleads();
      assert Reachable([0, 0], 2, t) && !Snapshot(t, t.threads[0]);
    }
  }

  /** A writer that finds the lock free can store a value; and a reader after it reads that value, and
      is accepted. */
  lemma {:induction false} WrittenIsRead(s: State, w: nat, r: nat, i: nat, v: int) returns (t: State)
    requires Inv(s) && s.lock == 0 && w < |s.threads| && r < |s.threads| && w != r && i < |s.cells|
    requires s.threads[w].Idle? && s.threads[r].Idle?
    ensures Run(s, [Xchg(w), FirstAdd(w), Store(w, i, v), SecondAdd(w), Cas(w),
                    ReadLock(r), Load(r, i), ReadUnlock(r)], t)
    ensures |t.threads| == |s.threads| && t.threads[r].Accepted? && t.threads[r].seen == map[i := v]
    ensures t.lock == 0 && t.cells == s.cells[i := v] && t.threads[w].Idle?
  {
    var ws := [Xchg(w), FirstAdd(w), Store(w, i, v), SecondAdd(w), Cas(w)];
    var u := WriterRun(s, w, i, v);
    var rs := [ReadLock(r), Load(r, i), ReadUnlock(r)];
    t := ReaderRun(u, r, i);
    RunConcat(s, ws, u, rs, t);
    assert ws + rs == [Xchg(w), FirstAdd(w), Store(w, i, v), SecondAdd(w), Cas(w),
                       ReadLock(r), Load(r, i), ReadUnlock(r)];
  }

  lemma {:induction false} WriterRun(s: State, w: nat, i: nat, v: int) returns (u: State)
    requires Inv(s) && s.lock == 0 && w < |s.threads| && i < |s.cells| && s.threads[w].Idle?
    ensures Run(s, [Xchg(w), FirstAdd(w), Store(w, i, v), SecondAdd(w), Cas(w)], u) && Inv(u)
    ensures u.lock == 0 && u.cells == s.cells[i := v] && u.threads == s.threads
  {
    var es := [Xchg(w), FirstAdd(w), Store(w, i, v), SecondAdd(w), Cas(w)];
    var a := Next(s, es[0]);
    var b := Next(a, es[1]);
    var c := Next(b, es[2]);
    var d := Next(c, es[3]);
    u := Next(d, es[4]);
    StepInv(s, es[0]);
    StepInv(a, es[1]);
    StepInv(b, es[2]);
    StepInv(c, es[3]);
    StepInv(d, es[4]);
    assert u.threads == s.threads;
    assert es[1..][1..] == es[2..] && es[2..][1..] == es[3..] && es[3..][1..] == es[4..] && es[4..][1..] == [];
    assert Run(d, es[4..], u);
    assert Run(c, es[3..], u);
    assert Run(b, es[2..], u);
    assert Run(a, es[1..], u);
  }

  lemma {:induction false} ReaderRun(s: State, r: nat, i: nat) returns (t: State)
    requires Inv(s) && s.lock == 0 && r < |s.threads| && i < |s.cells| && s.threads[r].Idle?
    ensures Run(s, [ReadLock(r), Load(r, i), ReadUnlock(r)], t) && |t.threads| == |s.threads|
    ensures t.threads[r].Accepted? && t.threads[r].seen == map[i := s.cells[i]]
    ensures t == s.(threads := t.threads) && t.threads == s.threads[r := t.threads[r]]
  {
    var es := [ReadLock(r), Load(r, i), ReadUnlock(r)];
    var a := Next(s, es[0]);
    var b := Next(a, es[1]);
    t := Next(b, es[2]);
    EvenCount(s);
    assert es[1..][1..] == es[2..] && es[2..][1..] == [];
    assert Run(b, es[2..], t);
    assert Run(a, es[1..], t);
  }

  lemma {:induction false} EvenCount(s: State)
    requires Inv(s) && s.lock == 0
    ensures s.count % 2 == 0
  {
  }
}
