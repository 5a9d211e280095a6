/** rwlock.h over spinlock.h: any number of readers and writers, one atomic instruction a step,
    under sequential consistency. */
module RwLock {
  import opened Words

  /** A reader takes writers_lock to enter (Entering, then Counted) and readers_lock to leave
      (Leaving, then Left).  A writer takes writers_lock and polls readers_count until it is 0. */
  datatype Phase = Idle | Entering | Counted | Inside | Leaving | Left | Polling | WriterInside

  /** The three words and the threads; and, for the statements only, who has each spin lock. */
  datatype State = State(count: int, readersLock: int, writersLock: int, threads: seq<Phase>, rOwner: int, wOwner: int)

  datatype Event =
    | TryRead(t: nat)
    | Add(t: nat)
    | Entered(t: nat)
    | TryLeave(t: nat)
    | Sub(t: nat)
    | Gone(t: nat)
    | TryWrite(t: nat)
    | Poll(t: nat)
    | WriteUnlock(t: nat)

  function Init(k: nat): State {
    State(0, 0, 0, seq(k, i => Idle), -1, -1)
  }

  predicate Enabled(s: State, e: Event) {
    e.t < |s.threads| && var p := s.threads[e.t];
    match e {
      case TryRead(_) => p.Idle?
      case Add(_) => p.Entering?
      case Entered(_) => p.Counted?
      case TryLeave(_) => p.Inside?
      case Sub(_) => p.Leaving?
      case Gone(_) => p.Left?
      case TryWrite(_) => p.Idle?
      case Poll(_) => p.Polling?
      case WriteUnlock(_) => p.WriterInside?
    }
  }

  /** An xchg on writers_lock, which succeeds when the old word is 0. */
  function TakeWriters(s: State, t: nat, p: Phase): State
    requires t < |s.threads|
  {
    if s.writersLock == 0 then s.(writersLock := 1, wOwner := t, threads := s.threads[t := p]) else s.(writersLock := 1)
  }

  /** A cas on writers_lock from 1 to 0. */
  function DropWriters(s: State, t: nat, p: Phase): State
    requires t < |s.threads|
  {
    if s.writersLock == 1 then s.(writersLock := 0, wOwner := -1, threads := s.threads[t := p])
      else s.(threads := s.threads[t := p])
  }

  function Next(s: State, e: Event): State
    requires Enabled(s, e)
  {
    match e {
      case TryRead(t) => TakeWriters(s, t, Entering)
      case Add(t) => s.(count := Increment(s.count), threads := s.threads[t := Counted])
      case Entered(t) => DropWriters(s, t, Inside)
      case TryLeave(t) =>
        if s.readersLock == 0 then s.(readersLock := 1, rOwner := t, threads := s.threads[t := Leaving])
          else s.(readersLock := 1)
      case Sub(t) => s.(count := Decrement(s.count), threads := s.threads[t := Left])
      case Gone(t) =>
        if s.readersLock == 1 then s.(readersLock := 0, rOwner := -1, threads := s.threads[t := Idle])
          else s.(threads := s.threads[t := Idle])
      case TryWrite(t) => TakeWriters(s, t, Polling)
      case Poll(t) => if s.count == 0 then s.(threads := s.threads[t := WriterInside]) else s
      case WriteUnlock(t) => DropWriters(s, t, Idle)
    }
  }

  ghost predicate Run(s: State, es: seq<Event>, t: State)
    decreases |es|
  {
    if es == [] then s == t else Enabled(s, es[0]) && Run(Next(s, es[0]), es[1..], t)
  }

  ghost predicate Reachable(k: nat, t: State) {
    exists es :: Run(Init(k), es, t)
  }

  // ---------- the invariant ----------

  predicate Reads(p: Phase) { p.Counted? || p.Inside? || p.Leaving? }

  predicate HasWriters(p: Phase) { p.Entering? || p.Counted? || p.Polling? || p.WriterInside? }

  predicate HasReaders(p: Phase) { p.Leaving? || p.Left? }

  /** The readers inside, counted from RwLock_ReadLock's add to RwLock_ReadUnlock's sub. */
  function Readers(ts: seq<Phase>): nat {
    if ts == [] then 0 else (if Reads(ts[0]) then 1 else 0) + Readers(ts[1..])
  }

  lemma {:induction false} ReadersAt(ts: seq<Phase>, t: nat, p: Phase)
    requires t < |ts|
    ensures Readers(ts[t := p]) + (if Reads(ts[t]) then 1 else 0) == Readers(ts) + (if Reads(p) then 1 else 0)
    ensures Reads(ts[t]) ==> Readers(ts) >= 1
  {
    if t == 0 {
      assert ts[t := p][1..] == ts[1..];
    } else {
      assert ts[t := p][1..] == ts[1..][t - 1 := p];
      ReadersAt(ts[1..], t - 1, p);
    }
  }

  lemma {:induction false} ReadersBound(ts: seq<Phase>)
    ensures Readers(ts) <= |ts|
  {
    if ts != [] { ReadersBound(ts[1..]); }
  }

  lemma {:induction false} NoReaders(ts: seq<Phase>)
    requires Readers(ts) == 0
    ensures forall i :: 0 <= i < |ts| ==> !Reads(ts[i])
  {
    forall i | 0 <= i < |ts| ensures !Reads(ts[i]) {
      ReadersAt(ts, i, ts[i]);
    }
  }

  predicate LocksOk(s: State) {
    && (s.readersLock == 0 || s.readersLock == 1) && (s.writersLock == 0 || s.writersLock == 1)
    && -1 <= s.rOwner < |s.threads| && (s.readersLock == 1 <==> s.rOwner >= 0)
    && -1 <= s.wOwner < |s.threads| && (s.writersLock == 1 <==> s.wOwner >= 0)
    && (forall i :: 0 <= i < |s.threads| ==> (HasReaders(s.threads[i]) <==> i == s.rOwner))
    && (forall i :: 0 <= i < |s.threads| ==> (HasWriters(s.threads[i]) <==> i == s.wOwner))
  }

  predicate WriterAlone(s: State) {
    forall i :: 0 <= i < |s.threads| && s.threads[i].WriterInside? ==> Readers(s.threads) == 0
  }

  predicate Inv(s: State) {
    LocksOk(s) && s.count == Wrap(Readers(s.threads)) && (|s.threads| <= WORD ==> WriterAlone(s))
  }

  lemma {:induction false} InitInv(k: nat)
    ensures Inv(Init(k))
  {
    NoneRead(Init(k).threads);
  }

  lemma {:induction false} NoneRead(ts: seq<Phase>)
    requires forall i :: 0 <= i < |ts| ==> !Reads(ts[i])
    ensures Readers(ts) == 0
  {
    if ts != [] { NoneRead(ts[1..]); }
  }

  lemma {:induction false} StepInv(s: State, e: Event)
    requires Inv(s) && Enabled(s, e)
    ensures Inv(Next(s, e)) && |Next(s, e).threads| == |s.threads|
  {
    if e.Poll? { PollAlone(s, e.t); }
    StepLocks(s, e);
    StepCount(s, e);
    StepAlone(s, e);
  }

  lemma {:induction false} StepCount(s: State, e: Event)
    requires s.count == Wrap(Readers(s.threads)) && Enabled(s, e)
    ensures Next(s, e).count == Wrap(Readers(Next(s, e).threads)) && |Next(s, e).threads| == |s.threads|
  {
    hide Readers;
    var n := Next(s, e);
    assert n.threads == s.threads[e.t := n.threads[e.t]];
    ReadersAt(s.threads, e.t, n.threads[e.t]);
    WrapNext(Readers(s.threads));
    if Readers(s.threads) > 0 { WrapNext(Readers(s.threads) - 1); }
  }

  lemma {:induction false} StepLocks(s: State, e: Event)
    requires LocksOk(s) && Enabled(s, e)
    ensures LocksOk(Next(s, e))
  {
    assert HasReaders(s.threads[e.t]) <==> e.t == s.rOwner;
    assert HasWriters(s.threads[e.t]) <==> e.t == s.wOwner;
  }

  /** A poll that reads 0 when there are fewer than 2^64 readers tells that there are none. */
  lemma {:induction false} PollAlone(s: State, t: nat)
    requires Inv(s) && Enabled(s, Poll(t))
    ensures |s.threads| <= WORD && s.count == 0 ==> Readers(s.threads) == 0
  {
    ReadersAt(s.threads, t, Inside);
    ReadersBound(s.threads[t := Inside]);
  }

  lemma {:induction false} StepAlone(s: State, e: Event)
    requires LocksOk(s) && Enabled(s, e) && (|s.threads| <= WORD ==> WriterAlone(s))
    requires e.Poll? && |s.threads| <= WORD && s.count == 0 ==> Readers(s.threads) == 0
    ensures |s.threads| <= WORD ==> WriterAlone(Next(s, e))
  {
    var n := Next(s, e);
    if n.threads != s.threads {
      ReadersAt(s.threads, e.t, n.threads[e.t]);
    }
    forall i | 0 <= i < |n.threads| && n.threads[i].WriterInside? && |s.threads| <= WORD
      ensures Readers(n.threads) == 0 {
      assert i != e.t ==> HasWriters(s.threads[i]);
    }
  }

  lemma {:induction false} RunInv(s: State, es: seq<Event>, t: State)
    requires Inv(s) && Run(s, es, t)
    ensures Inv(t) && |t.threads| == |s.threads|
    decreases |es|
  {
    if es != [] {
      StepInv(s, es[0]);
      RunInv(Next(s, es[0]), es[1..], t);
    }
  }

  // ---------- what the lock promises ----------

  /** In every reachable state readers_count is the number of readers inside. */
  lemma {:induction false} CountIsReaders(k: nat, t: State)
    requires Reachable(k, t)
    ensures t.count == Wrap(Readers(t.threads))
    ensures k < WORD / 2 ==> t.count == Readers(t.threads)
  {
    var es :| Run(Init(k), es, t);
    InitInv(k);
    RunInv(Init(k), es, t);
    ReadersBound(t.threads);
  }

  /** A writer inside excludes all readers and other writers. */
  predicate Excludes(s: State) {
    forall i, j :: 0 <= i < |s.threads| && 0 <= j < |s.threads| && s.threads[i].WriterInside? && j != i ==>
      !Reads(s.threads[j]) && !s.threads[j].WriterInside?
  }

  lemma {:induction false} Exclusion(k: nat, t: State)
    requires Reachable(k, t) && k <= WORD
    ensures Excludes(t)
  {
    var es :| Run(Init(k), es, t);
    InitInv(k);
    RunInv(Init(k), es, t);
    if Readers(t.threads) == 0 {
      NoReaders(t.threads);
    }
    assert forall i :: 0 <= i < |t.threads| && t.threads[i].WriterInside? ==> HasWriters(t.threads[i]);
  }

  lemma {:induction false} RunConcat(s: State, es: seq<Event>, t: State, fs: seq<Event>, u: State)
    requires Run(s, es, t) && Run(t, fs, u)
    ensures Run(s, es + fs, u)
    decreases |es|
  {
    if es == [] {
      assert es + fs == fs;
    } else {
      assert (es + fs)[0] == es[0] && (es + fs)[1..] == es[1..] + fs;
      RunConcat(Next(s, es[0]), es[1..], t, fs, u);
    }
  }

  /** The first n of k threads are readers inside. */
  function AllIn(k: nat, n: nat): State {
    State(Wrap(n), 0, 0, seq(k, i => if i < n then Inside else Idle), -1, -1)
  }

  lemma {:induction false} EnterAll(k: nat, n: nat) returns (es: seq<Event>)
    requires n <= k
    ensures Run(Init(k), es, AllIn(k, n))
  {
    if n == 0 {
      es := [];
      assert Init(k).threads == AllIn(k, 0).threads;
    } else {
      var fs := EnterAll(k, n - 1);
      var gs := [TryRead(n - 1), Add(n - 1), Entered(n - 1)];
      var s1 := Next(AllIn(k, n - 1), gs[0]);
      var s2 := Next(s1, gs[1]);
      WrapNext(n - 1);
      assert Next(s2, gs[2]).threads == AllIn(k, n).threads;
      assert gs[1..][1..] == [gs[2]];
      assert Run(s2, [gs[2]], AllIn(k, n));
      assert Run(s1, gs[1..], AllIn(k, n));
      es := fs + gs;
      RunConcat(Init(k), fs, AllIn(k, n - 1), gs, AllIn(k, n));
    }
  }

  /** 2^64 readers look like none. */
  lemma {:induction false} TooManyReaders(k: nat) returns (t: State)
    requires k > WORD
    ensures Reachable(k, t) && !Excludes(t)
  {
    var fs := EnterAll(k, WORD);
    var s := AllIn(k, WORD);
    var gs := [TryWrite(WORD), Poll(WORD)];
    var s1 := Next(s, gs[0]);
    t := Next(s1, gs[1]);
    assert gs[1..][1..] == [];
    assert Run(s1, gs[1..], t);
    RunConcat(Init(k), fs, s, gs, t);
    assert Run(Init(k), fs + gs, t);
    assert t.threads[WORD].WriterInside? && t.threads[0].Inside?;
  }

  lemma {:induction false} ExclusionExactly(k: nat)
    ensures (forall t :: Reachable(k, t) ==> Excludes(t)) <==> k <= WORD
  {
    if k <= WORD {
      forall t | Reachable(k, t) ensures Excludes(t) {
        Exclusion(k, t);
      }
    } else {
      var t := TooManyReaders(k);
      assert Reachable(k, t) && !Excludes(t);
    }
  }

  // ---------- a waiting writer drains the readers ----------

  predicate Excluding(p: Phase) { p.Polling? || p.WriterInside? }

  /** From when writer w waits until it unlocks, however it polls and whatever the others do, no
      reader enters and the count only falls. */
  lemma {:induction false} NoEntryWhileWaiting(s: State, es: seq<Event>, t: State, w: nat)
    requires Inv(s) && Run(s, es, t) && w < |s.threads| && Excluding(s.threads[w])
    requires forall i :: 0 <= i < |es| ==> es[i] != WriteUnlock(w)
    ensures w < |t.threads| == |s.threads| && Excluding(t.threads[w]) && Readers(t.threads) <= Readers(s.threads)
    ensures forall i :: 0 <= i < |s.threads| && Reads(t.threads[i]) ==> Reads(s.threads[i])
    decreases |es|
  {
    if es != [] {
      var n := Next(s, es[0]);
      StepInv(s, es[0]);
      assert HasWriters(s.threads[w]) && (HasWriters(s.threads[es[0].t]) <==> es[0].t == s.wOwner);
      ReadersAt(s.threads, es[0].t, n.threads[es[0].t]);
      assert n.threads == s.threads[es[0].t := n.threads[es[0].t]];
      NoEntryWhileWaiting(n, es[1..], t, w);
    }
  }

  /** How many steps the readers in ts still have to make to be gone. */
  function Work(ts: seq<Phase>): nat {
    if ts == [] then 0 else Steps(ts[0]) + Work(ts[1..])
  }

  function Steps(p: Phase): nat {
    match p
    case Inside => 3
    case Leaving => 2
    case Left => 1
    case _ => 0
  }

  lemma {:induction false} WorkAt(ts: seq<Phase>, t: nat, p: Phase)
    requires t < |ts|
    ensures Work(ts[t := p]) + Steps(ts[t]) == Work(ts) + Steps(p)
  {
    if t == 0 {
      assert ts[t := p][1..] == ts[1..];
    } else {
      assert ts[t := p][1..] == ts[1..][t - 1 := p];
      WorkAt(ts[1..], t - 1, p);
    }
  }

  lemma {:induction false} SomeReader(ts: seq<Phase>) returns (i: nat)
    requires Readers(ts) > 0
    ensures i < |ts| && Reads(ts[i])
  {
    if Reads(ts[0]) {
      i := 0;
    } else {
      i := SomeReader(ts[1..]);
      i := i + 1;
    }
  }

  /** Every reader present can leave: from any state with writer w waiting there is a run of leaving
      readers alone after which the writer's next poll lets it in. */
  lemma {:induction false} CanDrain(s: State, w: nat) returns (es: seq<Event>, t: State)
    requires Inv(s) && |s.threads| <= WORD && w < |s.threads| && s.threads[w].Polling?
    ensures Run(s, es, t) && |t.threads| == |s.threads| && t.threads[w].WriterInside? && Readers(t.threads) == 0
    ensures forall i :: 0 <= i < |es| ==> es[i].TryLeave? || es[i].Sub? || es[i].Gone? || es[i] == Poll(w)
    decreases Work(s.threads)
  {
    assert HasWriters(s.threads[w]);
    var e := Poll(w);
    if s.rOwner >= 0 {
      assert HasReaders(s.threads[s.rOwner]);
      e := if s.threads[s.rOwner].Leaving? then Sub(s.rOwner) else Gone(s.rOwner);
    } else if Readers(s.threads) > 0 {
      var i := SomeReader(s.threads);
      assert HasWriters(s.threads[i]) <==> i == s.wOwner;
      assert HasReaders(s.threads[i]) <==> i == s.rOwner;
      e := TryLeave(i);
    }
    var n := Next(s, e);
    StepInv(s, e);
    WorkAt(s.threads, e.t, n.threads[e.t]);
    if e.Poll? {
      es, t := [e], n;
      ReadersAt(s.threads, w, WriterInside);
      assert Run(n, [], n) && es[1..] == [];
    } else {
      assert n.threads == s.threads[e.t := n.threads[e.t]];
      var fs;
      fs, t := CanDrain(n, w);
      es := [e] + fs;
      assert es[1..] == fs;
    }
  }

  /** A writer's unlock frees the lock: any idle reader can then come in, and any idle writer, the
      same or another, since no reader is inside. */
  lemma {:induction false} UnlockAdmits(s: State, w: nat, t: nat)
    requires Inv(s) && Enabled(s, WriteUnlock(w)) && t < |s.threads| <= WORD && (t == w || s.threads[t].Idle?)
    ensures var n := Next(s, WriteUnlock(w));
      && n.writersLock == 0 && n.threads == s.threads[w := Idle]
      && (exists u :: Run(n, [TryRead(t), Add(t), Entered(t)], u) && |u.threads| == |s.threads| &&
                      u.threads[t].Inside? && u.writersLock == 0 && u.count == Wrap(1))
      && (exists u :: Run(n, [TryWrite(t), Poll(t)], u) && |u.threads| == |s.threads| && u.threads[t].WriterInside?)
  {
    var n := Next(s, WriteUnlock(w));
    StepInv(s, WriteUnlock(w));
    assert HasWriters(s.threads[w]) && Readers(s.threads) == 0;
    ReadersAt(s.threads, w, Idle);
    assert n.count == Wrap(0) == 0;
    CanRead(n, t);
    CanWrite(n, t);
  }

  lemma {:induction false} CanRead(n: State, t: nat)
    requires n.writersLock == 0 && n.count == 0 && t < |n.threads| && n.threads[t].Idle?
    ensures exists u ::
      Run(n, [TryRead(t), Add(t), Entered(t)], u) && |u.threads| == |n.threads| &&
      u.threads[t].Inside? && u.writersLock == 0 && u.count == Wrap(1)
  {
    var es := [TryRead(t), Add(t), Entered(t)];
    var a := Next(n, es[0]);
    var b := Next(a, es[1]);
    var u := Next(b, es[2]);
    assert es[1..] == [Add(t), Entered(t)] && es[1..][1..] == [Entered(t)] && es[1..][1..][1..] == [];
    assert Run(b, [Entered(t)], u);
    assert Run(a, [Add(t), Entered(t)], u);
    assert Run(n, es, u);
  }

  lemma {:induction false} CanWrite(n: State, t: nat)
    requires n.writersLock == 0 && n.count == 0 && t < |n.threads| && n.threads[t].Idle?
    ensures exists u :: Run(n, [TryWrite(t), Poll(t)], u) && |u.threads| == |n.threads| && u.threads[t].WriterInside?
  {
    var es := [TryWrite(t), Poll(t)];
    var a := Next(n, es[0]);
    var u := Next(a, es[1]);
    assert es[1..] == [Poll(t)] && es[1..][1..] == [];
    assert Run(a, [Poll(t)], u);
    assert Run(n, es, u);
  }
}
