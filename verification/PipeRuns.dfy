/** Any number of processes on one pipe, in every interleaving.  A step is one stretch that holds
    p->lock, from acquiring it (or waking up) to releasing it (or going to sleep); its effect on the
    bytes is the one that Pipe.Buffer's methods have. */
module PipeRuns {
  import opened Blocks
  import opened Pipe

  datatype Phase =
    | Idle
    | InWrite(rest: seq<byte>, n: nat)
    | WriteAsleep(rest: seq<byte>, n: nat)
    | InRead(n: nat)
    | ReadAsleep(n: nat)

  /** answer is what its last call has returned. */
  datatype Process = Process(phase: Phase, killed: bool, answer: int)

  datatype State = State(queue: seq<byte>, readopen: bool, writeopen: bool, procs: seq<Process>,
                         stored: seq<byte>, delivered: seq<byte>)

  datatype Event =
    | CallWrite(t: nat, bytes: seq<byte>)
    | CallRead(t: nat, n: nat)
    | StepWrite(t: nat)
    | StepRead(t: nat)
    | CloseWrite
    | CloseRead
    | Kill(t: nat)

  function Init(k: nat): State {
    State([], true, true, seq(k, i => Process(Idle, false, 0)), [], [])
  }

  predicate Writes(p: Phase) { p.InWrite? || p.WriteAsleep? }

  predicate Reads(p: Phase) { p.InRead? || p.ReadAsleep? }

  /** A process inside pipewrite or piperead has its end open, so the last close of an end comes
      when nobody is inside. */
  predicate Enabled(s: State, e: Event) {
    && |s.queue| <= PIPESIZE
    && match e {
         case CallWrite(t, _) => t < |s.procs| && s.procs[t].phase.Idle? && s.writeopen
         case CallRead(t, _) => t < |s.procs| && s.procs[t].phase.Idle? && s.readopen
         case StepWrite(t) => t < |s.procs| && s.procs[t].phase.InWrite?
         case StepRead(t) => t < |s.procs| && s.procs[t].phase.InRead?
         case CloseWrite => s.writeopen && forall i :: 0 <= i < |s.procs| ==> !Writes(s.procs[i].phase)
         case CloseRead => s.readopen && forall i :: 0 <= i < |s.procs| ==> !Reads(s.procs[i].phase)
         case Kill(t) => t < |s.procs|
       }
  }

  function Awaken(p: Phase): Phase {
    match p
    case WriteAsleep(rest, n) => InWrite(rest, n)
    case ReadAsleep(n) => InRead(n)
    case _ => p
  }

  /** wakeup(&p->nread) */
  function WakeReaders(ps: seq<Process>): seq<Process> {
    seq(|ps|, i requires 0 <= i < |ps| =>
      if ps[i].phase.ReadAsleep? then ps[i].(phase := Awaken(ps[i].phase)) else ps[i])
  }

  /** wakeup(&p->nwrite) */
  function WakeWriters(ps: seq<Process>): seq<Process> {
    seq(|ps|, i requires 0 <= i < |ps| =>
      if ps[i].phase.WriteAsleep? then ps[i].(phase := Awaken(ps[i].phase)) else ps[i])
  }

  function To(ps: seq<Process>, t: nat, p: Phase): seq<Process>
    requires t < |ps|
  {
    ps[t := ps[t].(phase := p)]
  }

  /** The call returns. */
  function Answered(ps: seq<Process>, t: nat, answer: int): seq<Process>
    requires t < |ps|
  {
    ps[t := ps[t].(phase := Idle, answer := answer)]
  }

  function DoWrite(s: State, t: nat): State
    requires t < |s.procs| && s.procs[t].phase.InWrite? && |s.queue| <= PIPESIZE
  {
    var rest, n := s.procs[t].phase.rest, s.procs[t].phase.n;
    var m := Fit(s.queue, rest);
    var procs := match WriteEnds(s.queue, rest, s.readopen, s.procs[t].killed)
      case Done => WakeReaders(Answered(s.procs, t, n))
      case Failed => Answered(s.procs, t, -1)
      case Sleeps => To(WakeReaders(s.procs), t, WriteAsleep(rest[m..], n));
    s.(queue := s.queue + rest[..m], stored := s.stored + rest[..m], procs := procs)
  }

  function DoRead(s: State, t: nat): State
    requires t < |s.procs| && s.procs[t].phase.InRead?
  {
    match ReadEnds(s.queue, s.writeopen, s.procs[t].killed)
    case Done =>
      var m := Least(s.procs[t].phase.n, |s.queue|);
      s.(queue := s.queue[m..], delivered := s.delivered + s.queue[..m], procs := WakeWriters(Answered(s.procs, t, m)))
    case Failed => s.(procs := Answered(s.procs, t, -1))
    case Sleeps => s.(procs := To(s.procs, t, ReadAsleep(s.procs[t].phase.n)))
  }

  function Next(s: State, e: Event): State
    requires Enabled(s, e)
  {
    match e {
      case CallWrite(t, bytes) => s.(procs := To(s.procs, t, InWrite(bytes, |bytes|)))
      case CallRead(t, n) => s.(procs := To(s.procs, t, InRead(n)))
      case StepWrite(t) => DoWrite(s, t)
      case StepRead(t) => DoRead(s, t)
      case CloseWrite => s.(writeopen := false, procs := WakeReaders(s.procs))
      case CloseRead => s.(readopen := false, procs := WakeWriters(s.procs))
      case Kill(t) => s.(procs := s.procs[t := s.procs[t].(phase := Awaken(s.procs[t].phase), killed := true)])
    }
  }

  ghost predicate Run(s: State, es: seq<Event>, t: State)
    decreases |es|
  {
    if es == [] then s == t else Enabled(s, es[0]) && Run(Next(s, es[0]), es[1..], t)
  }

  // ---------- bytes come out in the order they went in ----------

  predicate Fifo(s: State) {
    s.stored == s.delivered + s.queue && |s.queue| <= PIPESIZE
  }

  lemma {:induction false} StepFifo(s: State, e: Event)
    requires Fifo(s) && Enabled(s, e)
    ensures Fifo(Next(s, e))
  {
  }

  /** Over any run the bytes delivered are a prefix of the bytes stored, and the rest, at most 512
      bytes, is what the pipe holds. */
  lemma {:induction false} RunFifo(s: State, es: seq<Event>, t: State)
    requires Fifo(s) && Run(s, es, t)
    ensures Fifo(t)
    decreases |es|
  {
    if es != [] {
      StepFifo(s, es[0]);
      RunFifo(Next(s, es[0]), es[1..], t);
    }
  }

  // ---------- what a call returns ----------

  /** A read delivers the oldest bytes, as many as there are and it asks for, and returns how many; at
      the end of the file none; it sleeps exactly when the pipe is empty, a writer may come and it is
      not killed, and fails exactly when it is. */
  lemma {:induction false} ReadExactly(s: State, t: nat)
    requires Enabled(s, StepRead(t))
    ensures var n := Next(s, StepRead(t));
      && n.stored == s.stored && n.readopen == s.readopen && n.writeopen == s.writeopen && |n.procs| == |s.procs|
      && var p, q := s.procs[t], n.procs[t];
         (if |s.queue| > 0 || !s.writeopen then
            && q.phase.Idle? && 0 <= q.answer <= |s.queue| && n.queue == s.queue[q.answer..]
            && n.delivered == s.delivered + s.queue[..q.answer]
            && q.answer <= p.phase.n && (q.answer == p.phase.n || n.queue == [])
          else
            && n.queue == [] && n.delivered == s.delivered
            && if p.killed then q.phase.Idle? && q.answer == -1 else q.phase == ReadAsleep(p.phase.n))
  {
  }

  /** A write stores bytes in order up to its last, and returns their number; or up to a full pipe, and
      then sleeps, or fails exactly when there is no reader to come or it is killed. */
  lemma {:induction false} WriteExactly(s: State, t: nat)
    requires Enabled(s, StepWrite(t))
    ensures var n := Next(s, StepWrite(t));
      && n.delivered == s.delivered && n.readopen == s.readopen && n.writeopen == s.writeopen && |n.procs| == |s.procs|
      && s.stored <= n.stored && n.queue == s.queue + n.stored[|s.stored|..]
      && var p, q, more := s.procs[t], n.procs[t], n.stored[|s.stored|..];
         if |s.queue| + |p.phase.rest| <= PIPESIZE then
           more == p.phase.rest && q.phase.Idle? && q.answer == p.phase.n
         else
           && |n.queue| == PIPESIZE && more < p.phase.rest
           && (if !s.readopen || p.killed then q.phase.Idle? && q.answer == -1
               else q.phase == WriteAsleep(p.phase.rest[|more|..], p.phase.n))
  {
  }

  /** t makes no further call in this history. */
  predicate NoCall(es: seq<Event>, t: nat) {
    forall i :: 0 <= i < |es| ==> !((es[i].CallRead? || es[i].CallWrite?) && es[i].t == t)
  }

  /** The bytes that t's steps have stored, and those that they have delivered. */
  ghost function Gave(s: State, es: seq<Event>, u: State, t: nat): seq<byte>
    requires Run(s, es, u)
    decreases |es|
  {
    if es == [] then []
    else
      var n := Next(s, es[0]);
      (if es[0] == StepWrite(t) && |s.stored| <= |n.stored| then n.stored[|s.stored|..] else []) +
      Gave(n, es[1..], u, t)
  }

  ghost function Got(s: State, es: seq<Event>, u: State, t: nat): seq<byte>
    requires Run(s, es, u)
    decreases |es|
  {
    if es == [] then []
    else
      var n := Next(s, es[0]);
      (if es[0] == StepRead(t) && |s.delivered| <= |n.delivered| then n.delivered[|s.delivered|..] else []) +
      Got(n, es[1..], u, t)
  }

  /** Other steps leave a process where it is, or wake it up. */
  lemma {:induction false} OtherStep(s: State, e: Event, t: nat)
    requires Enabled(s, e) && t < |s.procs| && NoCall([e], t) && e != StepRead(t) && e != StepWrite(t)
    ensures var n := Next(s, e);
      && t < |n.procs| && n.procs[t].answer == s.procs[t].answer
      && (n.procs[t].phase == s.procs[t].phase || n.procs[t].phase == Awaken(s.procs[t].phase))
  {
    assert [e][0] == e;
  }

  lemma {:induction false} NoCallRest(es: seq<Event>, t: nat)
    requires NoCall(es, t) && es != []
    ensures NoCall([es[0]], t) && NoCall(es[1..], t)
  {
  }

  /** A process that has returned does nothing more. */
  lemma {:induction false} Finished(s: State, es: seq<Event>, u: State, t: nat)
    requires Run(s, es, u) && t < |s.procs| && s.procs[t].phase.Idle? && NoCall(es, t)
    ensures t < |u.procs| && u.procs[t].phase.Idle? && u.procs[t].answer == s.procs[t].answer
    ensures Gave(s, es, u, t) == [] && Got(s, es, u, t) == []
    decreases |es|
  {
    if es != [] {
      NoCallRest(es, t);
      OtherStep(s, es[0], t);
      Finished(Next(s, es[0]), es[1..], u, t);
    }
  }

  /** The process has stored gave of the bytes of its call, which was for n of them. */
  predicate WroteSoFar(q: Process, rest: seq<byte>, n: nat, gave: seq<byte>) {
    || (Writes(q.phase) && q.phase.n == n && gave + q.phase.rest == rest)
    || (q.phase.Idle? && q.answer == n && gave == rest)
    || (q.phase.Idle? && q.answer == -1 && gave < rest)
  }

  lemma {:induction false} WroteMore(q: Process, rest: seq<byte>, n: nat, more: seq<byte>, gave: seq<byte>)
    requires more <= rest && WroteSoFar(q, rest[|more|..], n, gave)
    ensures WroteSoFar(q, rest, n, more + gave)
  {
    assert more + rest[|more|..] == rest;
  }

  /** However the others interleave: a call of pipewrite stores its bytes in order; when it returns n
      it has stored all of them, and when it fails not all. */
  lemma {:induction false} WriteReturns(s: State, es: seq<Event>, u: State, t: nat)
    requires Run(s, es, u) && t < |s.procs| && Writes(s.procs[t].phase) && NoCall(es, t)
    ensures t < |u.procs|
    ensures WroteSoFar(u.procs[t], s.procs[t].phase.rest, s.procs[t].phase.n, Gave(s, es, u, t))
    decreases |es|
  {
    hide Next, NoCall;
    if es != [] {
      var n, rest := Next(s, es[0]), s.procs[t].phase.rest;
      NoCallRest(es, t);
      if es[0] == StepWrite(t) {
        WriteExactly(s, t);
        var more := n.stored[|s.stored|..];
        if n.procs[t].phase.Idle? {
          Finished(n, es[1..], u, t);
          assert more + [] == more;
        } else {
          WriteReturns(n, es[1..], u, t);
          WroteMore(u.procs[t], rest, s.procs[t].phase.n, more, Gave(n, es[1..], u, t));
        }
      } else {
        OtherStep(s, es[0], t);
        WriteReturns(n, es[1..], u, t);
        assert [] + Gave(n, es[1..], u, t) == Gave(n, es[1..], u, t);
      }
    }
  }

  /** How a read of n bytes by t returns from state b. */
  predicate ReadDone(b: State, t: nat, n: nat, answer: int, got: seq<byte>) {
    && (|b.queue| > 0 || !b.writeopen || (t < |b.procs| && b.procs[t].killed))
    && if |b.queue| == 0 && b.writeopen then answer == -1 && got == []
       else answer == |got| == Least(n, |b.queue|) && got <= b.queue
  }

  /** However the others interleave: a call of piperead delivers nothing until it returns; then it has
      got the oldest bytes, as many as there were and it asked for. */
  lemma {:induction false} ReadReturns(s: State, es: seq<Event>, u: State, t: nat) returns (b: State)
    requires Run(s, es, u) && t < |s.procs| && Reads(s.procs[t].phase) && NoCall(es, t)
    ensures t < |u.procs| && (u.procs[t].phase.Idle? || Reads(u.procs[t].phase))
    ensures Reads(u.procs[t].phase) ==> u.procs[t].phase.n == s.procs[t].phase.n && Got(s, es, u, t) == []
    ensures u.procs[t].phase.Idle? ==>
      && Enabled(b, StepRead(t)) && (exists j :: 0 <= j < |es| && Run(s, es[..j], b) && es[j] == StepRead(t))
      && ReadDone(b, t, s.procs[t].phase.n, u.procs[t].answer, Got(s, es, u, t))
    decreases |es|
  {
    hide Next, NoCall, WroteSoFar;
    b := s;
    if es != [] {
      var n := Next(s, es[0]);
      NoCallRest(es, t);
      if es[0] == StepRead(t) {
        ReadExactly(s, t);
        if n.procs[t].phase.Idle? {
          Finished(n, es[1..], u, t);
          assert es[..0] == [] && Run(s, es[..0], b);
          assert Got(s, es, u, t) == n.delivered[|s.delivered|..];
        } else {
          b := ReadReturns(n, es[1..], u, t);
          LaterRun(s, es, b, t, u.procs[t].phase.Idle?);
        }
      } else {
        OtherStep(s, es[0], t);
        b := ReadReturns(n, es[1..], u, t);
        LaterRun(s, es, b, t, u.procs[t].phase.Idle?);
      }
    }
  }

  lemma {:induction false} LaterRun(s: State, es: seq<Event>, b: State, t: nat, found: bool)
    requires es != [] && Enabled(s, es[0])
    requires found ==>
      exists j :: 0 <= j < |es| - 1 && Run(Next(s, es[0]), es[1..][..j], b) && es[1..][j] == StepRead(t)
    ensures found ==> exists j :: 0 <= j < |es| && Run(s, es[..j], b) && es[j] == StepRead(t)
  {
    if found {
      var j :| 0 <= j < |es| - 1 && Run(Next(s, es[0]), es[1..][..j], b) && es[1..][j] == StepRead(t);
      assert es[..j + 1][1..] == es[1..][..j];
      assert Run(s, es[..j + 1], b) && es[j + 1] == StepRead(t);
    }
  }

  // ---------- nobody sleeps in vain ----------

  /** Nobody is inside an operation on a closed end. */
  predicate EndsOk(s: State) {
    forall i :: 0 <= i < |s.procs| ==>
      (Reads(s.procs[i].phase) ==> s.readopen) && (Writes(s.procs[i].phase) ==> s.writeopen)
  }

  /** No reader sleeps with data present or writers gone; no writer sleeps with room present or
      readers gone. */
  predicate SleepersOk(s: State) {
    && (forall i :: 0 <= i < |s.procs| && s.procs[i].phase.ReadAsleep? ==> s.queue == [] && s.writeopen)
    && (forall i :: 0 <= i < |s.procs| && s.procs[i].phase.WriteAsleep? ==> |s.queue| == PIPESIZE && s.readopen)
  }

  predicate Inv(s: State) {
    Fifo(s) && EndsOk(s) && SleepersOk(s)
  }

  lemma {:induction false} StepEnds(s: State, e: Event)
    requires EndsOk(s) && Enabled(s, e)
    ensures EndsOk(Next(s, e))
  {
  }

  /** A killed writer gives up on a full pipe without waking the readers of what it stored. */
  predicate Strands(s: State, e: Event) {
    e.StepWrite? && e.t < |s.procs| && s.procs[e.t].phase.InWrite? && s.procs[e.t].killed &&
      |s.procs[e.t].phase.rest| > PIPESIZE
    && exists i :: 0 <= i < |s.procs| && s.procs[i].phase.ReadAsleep?
  }

  /** A step keeps the sleepers right exactly when it is not such a write. */
  lemma {:induction false} StrandsExactly(s: State, e: Event)
    requires Inv(s) && Enabled(s, e)
    ensures SleepersOk(Next(s, e)) <==> !Strands(s, e)
  {
    if Strands(s, e) {
      var i :| 0 <= i < |s.procs| && s.procs[i].phase.ReadAsleep?;
      assert Next(s, e).procs[i].phase.ReadAsleep? && |Next(s, e).queue| == PIPESIZE;
    } else if e.StepWrite? {
      WriteKeeps(s, e.t);
    } else {
      OthersKeep(s, e);
    }
  }

  lemma {:induction false} WriteKeeps(s: State, t: nat)
    requires Inv(s) && Enabled(s, StepWrite(t)) && !Strands(s, StepWrite(t))
    ensures SleepersOk(DoWrite(s, t))
  {
  }

  lemma {:induction false} OthersKeep(s: State, e: Event)
    requires Inv(s) && Enabled(s, e) && !e.StepWrite?
    ensures SleepersOk(Next(s, e))
  {
  }

  /** No step of the run is a write by a killed process. */
  ghost predicate Spared(s: State, es: seq<Event>)
    decreases |es|
  {
    es == [] || (Enabled(s, es[0]) && (es[0].StepWrite? ==> !s.procs[es[0].t].killed) &&
      Spared(Next(s, es[0]), es[1..]))
  }

  lemma {:induction false} RunInv(s: State, es: seq<Event>, t: State)
    requires Inv(s) && Run(s, es, t) && Spared(s, es)
    ensures Inv(t)
    decreases |es|
  {
    if es != [] {
      StepFifo(s, es[0]);
      StepEnds(s, es[0]);
      StrandsExactly(s, es[0]);
      RunInv(Next(s, es[0]), es[1..], t);
    }
  }

  /** If no writer has been killed, then whenever the lock is free every sleeper has to sleep. */
  lemma {:induction false} NoVainSleep(k: nat, es: seq<Event>, t: State)
    requires Run(Init(k), es, t) && Spared(Init(k), es)
    ensures SleepersOk(t)
  {
    RunInv(Init(k), es, t);
  }

  /** With a killed writer it can happen: a reader sleeps although the pipe is full. */
  lemma {:induction false} KilledWriterStrands() returns (es: seq<Event>, t: State)
    ensures Run(Init(2), es, t) && |t.procs| == 2 && t.procs[0].phase.ReadAsleep? && |t.queue| == PIPESIZE
  {
    var bytes: seq<byte> := seq(PIPESIZE + 1, i => 0);
    es := [CallRead(0, 1), StepRead(0), CallWrite(1, bytes), Kill(1), StepWrite(1)];
    var s1 := Next(Init(2), es[0]);
    var s2 := Next(s1, es[1]);
    var s3 := Next(s2, es[2]);
    var s4 := Next(s3, es[3]);
    t := Next(s4, es[4]);
    assert es[1..][1..] == es[2..] && es[2..][1..] == es[3..] && es[3..][1..] == es[4..] && es[4..][1..] == [];
    assert Run(s4, es[4..], t);
    assert Run(s3, es[3..], t);
    assert Run(s2, es[2..], t);
    assert Run(s1, es[1..], t);
  }
}
