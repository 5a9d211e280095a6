/** The alarm of one process: sys_alarm (sysproc.c) and the timer and page-fault traps that enter
    and leave its handler (trap.c). */
module Alarm {
  import opened Common

  type int32 = x: int | -0x8000_0000 <= x < 0x8000_0000

  const MAGIC: uint32 := 0xFFFF_FFFF   // the return address of a handler
  const DPL_USER := 3

  /** A trap frame: the fields that the traps use, and all the others. */
  datatype Frame = Frame(esp: uint32, eip: uint32, cs: uint32, others: seq<uint32>)

  /** The alarm fields of struct proc. */
  datatype Proc = Proc(alarmtime: int32, alarmpassed: int32, handler: uint32, handling: bool, saved: Frame)

  predicate InUser(tf: Frame) { tf.cs % 4 == DPL_USER }

  /** The tick is one the alarm counts. */
  predicate Counts(p: Proc, tf: Frame) {
    InUser(tf) && p.alarmtime > 0 && !p.handling
  }

  /** This tick calls the handler. */
  predicate Delivers(p: Proc, tf: Frame) {
    Counts(p, tf) && p.alarmpassed + 1 >= p.alarmtime
  }

  function Push(esp: uint32): uint32 { (esp - 4) % 0x1_0000_0000 }

  /** The frame with which the handler is entered. */
  function Entry(p: Proc, tf: Frame): Frame {
    tf.(esp := Push(tf.esp), eip := p.handler)
  }

  /** A counter that has reached INT_MAX wraps. */
  function Plus(n: int32): int32 { if n == 0x7FFF_FFFF then -0x8000_0000 else n + 1 }

  function Tick(p: Proc, tf: Frame): Proc {
    if !Counts(p, tf) then p
    else if Plus(p.alarmpassed) >= p.alarmtime then p.(alarmpassed := 0, handling := true, saved := tf)
    else p.(alarmpassed := Plus(p.alarmpassed))
  }

  /** A fault at the magic address while a handler runs is its return. */
  predicate Returns(p: Proc, cr2: uint32) { p.handling && cr2 == MAGIC }

  function Fault(p: Proc, cr2: uint32): Proc {
    if Returns(p, cr2) then p.(handling := false) else p
  }

  function Set(p: Proc, ticks: int32, handler: uint32): Proc {
    p.(alarmtime := ticks, alarmpassed := 0, handler := handler)
  }

  /** The process as the kernel updates it, with the user memory it writes. */
  class Process {
    var alarmtime: int32
    var alarmpassed: int32
    var handler: uint32
    var handling: bool
    var saved: Frame
    var memory: map<uint32, uint32>

    function Fields(): Proc
      reads this
    {
      Proc(alarmtime, alarmpassed, handler, handling, saved)
    }

    /** The timer case of trap(); the new frame is the one that trap() returns to. */
    method Timer(tf: Frame) returns (tf': Frame)
      modifies this
      ensures Fields() == Tick(old(Fields()), tf)
      ensures tf.cs % 4 != DPL_USER ==> Fields() == old(Fields()) && tf' == tf && memory == old(memory)
      ensures handling && !old(handling) ==>
        && tf'.eip == old(handler) && saved == tf
        && tf' == tf.(eip := tf'.eip, esp := if tf.esp >= 4 then tf.esp - 4 else tf.esp + 0xFFFF_FFFC)
      ensures handling && !old(handling) ==> tf' == Entry(old(Fields()), tf) && memory == old(memory)[tf'.esp := MAGIC]
      ensures handling == old(handling) ==> tf' == tf && memory == old(memory)
    {
      tf' := tf;
      if tf.cs % 4 == DPL_USER {
        if alarmtime > 0 && !handling {
          alarmpassed := Plus(alarmpassed);
          if alarmpassed >= alarmtime {
            saved := tf;
            tf' := tf'.(esp := Push(tf'.esp));
            memory := memory[tf'.esp := MAGIC];
            tf' := tf'.(eip := handler);
            alarmpassed := 0;
            handling := true;
          }
        }
      }
    }

    /** The page-fault case of trap(). */
    method PageFault(tf: Frame, cr2: uint32) returns (tf': Frame)
      modifies this`handling
      ensures Fields() == Fault(old(Fields()), cr2)
      ensures tf' == if Returns(old(Fields()), cr2) then old(saved) else tf
    {
      if handling {
        if cr2 == MAGIC {
          handling := false;
          return saved;
        }
      }
      return tf;
    }

    /** sys_alarm(), given the outcomes of argint and argptr. */
    method SysAlarm(ticks: Option<int32>, h: Option<uint32>) returns (r: int)
      modifies this`alarmtime, this`alarmpassed, this`handler
      ensures r == if ticks.Some? && h.Some? then 0 else -1
      ensures Fields() == if r == 0 then Set(old(Fields()), ticks.value, h.value) else old(Fields())
      ensures r == 0 ==> alarmtime == ticks.value && handler == h.value && alarmpassed == 0
    {
      if ticks.None? {
        return -1;
      }
      if h.None? {
        return -1;
      }
      alarmtime := ticks.value;
      alarmpassed := 0;
      handler := h.value;
      return 0;
    }
  }

  // ---------- runs ----------

  /** A timer tick or a page fault with the frame it interrupts, or a successful sys_alarm. */
  datatype Event = OnTick(tf: Frame) | OnFault(tf: Frame, cr2: uint32) | OnAlarm(ticks: int32, handler: uint32)

  /** The process and, for the statements: the ticks counted and the handlers entered since the last
      sys_alarm, and the frame the running handler interrupted. */
  datatype State = State(proc: Proc, counted: nat, entered: nat, interrupted: Frame)

  function Start(tf: Frame): State {
    State(Proc(0, 0, 0, false, tf), 0, 0, tf)
  }

  function Next(s: State, e: Event): State {
    match e
    case OnTick(tf) =>
      State(Tick(s.proc, tf),
            s.counted + (if Counts(s.proc, tf) then 1 else 0),
            s.entered + (if Delivers(s.proc, tf) then 1 else 0),
            if Delivers(s.proc, tf) then tf else s.interrupted)
    case OnFault(tf, cr2) => s.(proc := Fault(s.proc, cr2))
    case OnAlarm(ticks, handler) => State(Set(s.proc, ticks, handler), 0, 0, s.interrupted)
  }

  function After(s: State, es: seq<Event>): State
    decreases |es|
  {
    if es == [] then s else After(Next(s, es[0]), es[1..])
  }

  /** Every counted tick is accounted for, and the saved frame is the interrupted one. */
  predicate Inv(s: State) {
    && 0 <= s.proc.alarmpassed
    && (s.proc.alarmtime > 0 ==> s.proc.alarmpassed < s.proc.alarmtime)
    && (s.proc.alarmtime <= 0 ==> s.proc.alarmpassed == 0 && s.counted == 0 && s.entered == 0)
    && s.counted == s.proc.alarmtime * s.entered + s.proc.alarmpassed
    && (s.proc.handling ==> s.proc.saved == s.interrupted)
  }

  lemma {:induction false} StepInv(s: State, e: Event)
    requires Inv(s)
    ensures Inv(Next(s, e))
  {
  }

  /** After any run: with period n > 0, the counted ticks since the last sys_alarm are n times the
      handlers entered plus alarmpassed, and alarmpassed stays below n. */
  lemma {:induction false} TicksAccounted(s: State, es: seq<Event>)
    requires Inv(s)
    ensures Inv(After(s, es))
    decreases |es|
  {
    if es != [] {
      StepInv(s, es[0]);
      TicksAccounted(Next(s, es[0]), es[1..]);
    }
  }

  /** So many handlers have been entered as periods have passed. */
  lemma {:induction false} DeliveriesAre(tf: Frame, es: seq<Event>)
    ensures var s := After(Start(tf), es); s.proc.alarmtime > 0 ==>
      s.entered == s.counted / s.proc.alarmtime && s.proc.alarmpassed == s.counted % s.proc.alarmtime
  {
    TicksAccounted(Start(tf), es);
    var s := After(Start(tf), es);
    if s.proc.alarmtime > 0 {
      QuotientIs(s.counted, s.proc.alarmtime, s.entered, s.proc.alarmpassed);
    }
  }

  lemma {:induction false} QuotientIs(a: nat, n: nat, q: nat, r: nat)
    requires r < n && a == n * q + r
    ensures q == a / n && r == a % n
  {
    var q', r' := a / n, a % n;
    assert n * q' + r' == n * q + r;
    assert q < q' ==> n * q' >= n * (q + 1);
    assert q' < q ==> n * q >= n * (q' + 1);
  }

  /** A tick counts exactly when it comes in user mode with an alarm set and no handler running; and
      every alarmtime-th of those enters the handler; any other tick changes nothing. */
  lemma {:induction false} TickExactly(s: State, tf: Frame)
    requires Inv(s)
    ensures var n := Next(s, OnTick(tf));
      if tf.cs % 4 == 3 && s.proc.alarmtime > 0 && !s.proc.handling then
        && n.counted == s.counted + 1
        && (n.proc.handling <==> n.counted % s.proc.alarmtime == 0)
        && (n.proc.handling ==> n.proc.saved == tf && n.entered == s.entered + 1)
        && (!n.proc.handling ==> n.entered == s.entered)
        && n.proc.alarmtime == s.proc.alarmtime && n.proc.handler == s.proc.handler
      else n == s
  {
    StepInv(s, OnTick(tf));
    var n := Next(s, OnTick(tf));
    if tf.cs % 4 == 3 && s.proc.alarmtime > 0 && !s.proc.handling {
      QuotientIs(n.counted, s.proc.alarmtime, n.entered, n.proc.alarmpassed);
    }
  }

  /** Until the next sys_alarm the period and the handler are the ones it was given. */
  lemma {:induction false} AlarmStays(s: State, ticks: int32, handler: uint32, es: seq<Event>)
    requires forall i :: 0 <= i < |es| ==> !es[i].OnAlarm?
    ensures var t := After(Next(s, OnAlarm(ticks, handler)), es); t.proc.alarmtime == ticks && t.proc.handler == handler
  {
    KeepsAlarm(Next(s, OnAlarm(ticks, handler)), es);
  }

  lemma {:induction false} KeepsAlarm(s: State, es: seq<Event>)
    requires forall i :: 0 <= i < |es| ==> !es[i].OnAlarm?
    ensures After(s, es).proc.alarmtime == s.proc.alarmtime && After(s, es).proc.handler == s.proc.handler
    decreases |es|
  {
    if es != [] {
      KeepsAlarm(Next(s, es[0]), es[1..]);
    }
  }

  /** While a handler runs no other is entered. */
  lemma {:induction false} NoNesting(s: State, es: seq<Event>)
    requires s.proc.handling && forall i :: 0 <= i < |es| ==> !(es[i].OnFault? && es[i].cr2 == MAGIC)
    ensures var t := After(s, es); t.proc.handling && t.proc.saved == s.proc.saved && t.interrupted == s.interrupted
    ensures After(s, es).entered <= s.entered
    decreases |es|
  {
    if es != [] {
      NoNesting(Next(s, es[0]), es[1..]);
    }
  }

  /** A whole delivery: the tick saves the frame, the handler runs through any other traps, and its
      return brings the interrupted frame back, field for field. */
  lemma {:induction false} ReturnRestores(s: State, tf: Frame, es: seq<Event>)
    requires Inv(s) && Delivers(s.proc, tf)
    requires forall i :: 0 <= i < |es| ==> !(es[i].OnFault? && es[i].cr2 == MAGIC)
    ensures var t := After(Next(s, OnTick(tf)), es); Returns(t.proc, MAGIC) && t.proc.saved == tf
    ensures !Next(After(Next(s, OnTick(tf)), es), OnFault(tf, MAGIC)).proc.handling
  {
    NoNesting(Next(s, OnTick(tf)), es);
  }
}
