/**
 The UART transmit path: uart1_putchar runs statement by statement in a task, and the interrupt handler may
 run between any two of its statements. `accepted` and `sent` record the history of the two sides.
 */
module UartTx {
  import opened Bytes
  import opened RingArithmetic

  /** Where the task is inside uart1_putchar. */
  datatype Pc =
    | Idle        // outside
    | Store(c: byte)      // tx_buf[tx_wr_index] = c
    | Increment(c: byte)  // ++tx_wr_index
    | Wrap(c: byte)       // if (tx_wr_index >= depth) tx_wr_index = 0
    | Count(c: byte)      // tx_wr_cnt++
    | TestRun             // if (tx_run == false)
    | SetRun              // tx_run = true
    | ReadCr1             // load of CR1 |= TXEIE
    | WriteCr1(cr1: bool) // store of CR1 |= TXEIE, with the bit as loaded
  {
    /** The byte is not yet counted. */
    predicate Adding() { Store? || Increment? || Wrap? || Count? }
  }

  datatype State = State(
    buf: seq<byte>, wrIndex: nat, wrCnt: u32, rdIndex: nat, rdCnt: u32, run: bool, txeie: bool,
    pc: Pc,
    accepted: seq<byte>, sent: seq<byte>)
  {
    function Depth(): nat { |buf| }
  }

  datatype Event = Call(c: byte) | Task | Irq

  function Init(buf: seq<byte>): State {
    State(buf, 0, 0, 0, 0, false, false, Idle, [], [])
  }

  /** Entry of uart1_putchar: refuse when the ring is full. */
  function Enter(s: State, c: byte): State {
    if WrappedDifference(s.wrCnt, s.rdCnt) >= s.Depth() then s else s.(pc := Store(c))
  }

  /** The next statement of uart1_putchar. */
  function TaskStep(s: State): State {
    match s.pc
    case Idle => s
    case Store(c) => s.(pc := Increment(c), buf := if s.wrIndex < |s.buf| then s.buf[s.wrIndex := c] else s.buf)
    case Increment(c) => s.(pc := Wrap(c), wrIndex := s.wrIndex + 1)
    case Wrap(c) => s.(pc := Count(c), wrIndex := if s.wrIndex >= s.Depth() then 0 else s.wrIndex)
    case Count(c) => s.(pc := TestRun, wrCnt := Wrapped(s.wrCnt + 1), accepted := s.accepted + [c])
    case TestRun => s.(pc := if s.run then Idle else SetRun)
    case SetRun => s.(pc := ReadCr1, run := true)
    case ReadCr1 => s.(pc := WriteCr1(s.txeie))
    case WriteCr1(cr1) => s.(pc := Idle, txeie := true)
  }

  /** The transmit part of LPUART1_IRQHandler, when the data register is empty. */
  function IrqStep(s: State): State {
    if !s.txeie then s
    else if s.wrCnt == s.rdCnt then s.(txeie := false, run := false)
    else s.(rdIndex := if s.rdIndex + 1 >= s.Depth() then 0 else s.rdIndex + 1,
            rdCnt := Wrapped(s.rdCnt + 1),
            sent := s.sent + [if s.rdIndex < |s.buf| then s.buf[s.rdIndex] else 0])
  }

  /** A call is possible only outside putchar. */
  function Step(s: State, e: Event): State {
    match e
    case Call(c) => if s.pc == Idle then Enter(s, c) else s
    case Task => TaskStep(s)
    case Irq => IrqStep(s)
  }

  /** The state after any interleaving. */
  function Run(s: State, events: seq<Event>): State
    decreases |events|
  {
    if events == [] then s else Run(Step(s, events[0]), events[1..])
  }

  // ----- the invariant

  /** Bytes accepted and not yet sent. */
  function Pending(s: State): int { |s.accepted| - |s.sent| }

  ghost predicate Counters(s: State) {
    && DividesWord(s.Depth())
    && s.sent <= s.accepted && Pending(s) <= s.Depth()
    && s.wrCnt == Wrapped(|s.accepted|) && s.rdCnt == Wrapped(|s.sent|)
    && s.rdIndex == Slot(|s.sent|, s.Depth())
    && s.wrIndex == (match s.pc
                     case Wrap(_) => Slot(|s.accepted|, s.Depth()) + 1
                     case Count(_) => Slot(|s.accepted| + 1, s.Depth())
                     case _ => Slot(|s.accepted|, s.Depth()))
  }

  ghost predicate Slots(s: State)
    requires s.Depth() > 0
  {
    && (forall k :: |s.sent| <= k < |s.accepted| ==> s.buf[Slot(k, s.Depth())] == s.accepted[k])
    && (s.pc.Increment? || s.pc.Wrap? || s.pc.Count? ==> s.buf[Slot(|s.accepted|, s.Depth())] == s.pc.c)
    && (s.pc.Adding() ==> Pending(s) < s.Depth())
  }

  /** The run flag mirrors the interrupt enable except while putchar is switching it on. */
  ghost predicate Wakeup(s: State) {
    && (s.pc.ReadCr1? || s.pc.WriteCr1? ==> s.run && !s.txeie)
    && (!(s.pc.ReadCr1? || s.pc.WriteCr1?) ==> s.run == s.txeie)
    && (s.pc.SetRun? ==> !s.run)
    && (!(s.pc.TestRun? || s.pc.SetRun?) && Pending(s) > 0 ==> s.run)
  }

  ghost predicate Inv(s: State) {
    Counters(s) && Slots(s) && Wakeup(s)
  }

  lemma InitInv(buf: seq<byte>)
    requires DividesWord(|buf|)
    ensures Inv(Init(buf))
  {
  }

  lemma EnterKeeps(s: State, c: byte)
    requires Inv(s) && s.pc == Idle
    ensures Inv(Enter(s, c))
    ensures Enter(s, c).pc == Store(c) <==> Pending(s) < s.Depth()
  {
    WrappedDistance(|s.accepted|, |s.sent|);
  }

  lemma TaskKeeps(s: State)
    requires Inv(s)
    ensures Inv(TaskStep(s)) && TaskStep(s).Depth() == s.Depth()
    ensures s.accepted <= TaskStep(s).accepted && s.sent == TaskStep(s).sent
  {
    hide Slot, WrappedDifference, Wrapped;
    var d := s.Depth();
    NextSlot(|s.accepted|, d);
    WrappedNext(|s.accepted|);
    if s.pc.Store? {
      forall k | |s.sent| <= k < |s.accepted| ensures Slot(k, d) != Slot(|s.accepted|, d) {
        DifferentSlots(k, |s.accepted|, d);
      }
    } else if s.pc.Count? {
      WrappedDistance(|s.accepted| + 1, |s.sent|);
    }
  }

  lemma IrqKeeps(s: State)
    requires Inv(s)
    ensures Inv(IrqStep(s)) && IrqStep(s).Depth() == s.Depth()
    ensures s.accepted == IrqStep(s).accepted && s.sent <= IrqStep(s).sent
    ensures s.txeie && Pending(s) > 0 ==> IrqStep(s).sent == s.accepted[..|s.sent| + 1]
    ensures s.txeie && Pending(s) == 0 ==> IrqStep(s) == s.(txeie := false, run := false)
  {
    hide Slot, WrappedDifference, Wrapped;
    WrappedDistance(|s.accepted|, |s.sent|);
    WrappedNext(|s.sent|);
    NextSlot(|s.sent|, s.Depth());
    if s.txeie && Pending(s) > 0 {
      assert s.buf[Slot(|s.sent|, s.Depth())] == s.accepted[|s.sent|];
    }
  }

  lemma StepKeeps(s: State, e: Event)
    requires Inv(s)
    ensures Inv(Step(s, e)) && Step(s, e).Depth() == s.Depth()
    ensures s.accepted <= Step(s, e).accepted && s.sent <= Step(s, e).sent
  {
    hide Slot, WrappedDifference, Wrapped, Counters, Slots, Wakeup;
    match e
    case Call(c) => if s.pc == Idle { EnterKeeps(s, c); }
    case Task => TaskKeeps(s);
    case Irq => IrqKeeps(s);
  }

  lemma {:induction false} RunKeeps(s: State, events: seq<Event>)
    requires Inv(s)
    ensures Inv(Run(s, events)) && Run(s, events).Depth() == s.Depth()
    ensures s.accepted <= Run(s, events).accepted && s.sent <= Run(s, events).sent
    decreases |events|
  {
    hide TaskStep, IrqStep, Enter, Slots, Wakeup;
    if events != [] {
      StepKeeps(s, events[0]);
      RunKeeps(Step(s, events[0]), events[1..]);
    }
  }

  // ----- what every interleaving guarantees

  /** No lost wake-up: whenever putchar is not running and the ring holds a byte, the transmitter is running. */
  lemma NoLostWakeup(buf: seq<byte>, events: seq<Event>)
    requires DividesWord(|buf|)
    ensures var s := Run(Init(buf), events);
            s.pc == Idle && |s.sent| < |s.accepted| ==> s.run && s.txeie
  {
    InitInv(buf);
    RunKeeps(Init(buf), events);
  }

  /** Bytes leave in the order they were accepted; the ring never holds more than its depth; each index is
      its 32-bit counter modulo the depth, even after the counters wrap. */
  lemma FifoThroughWrapAround(buf: seq<byte>, events: seq<Event>)
    requires DividesWord(|buf|)
    ensures var s := Run(Init(buf), events);
      && s.sent <= s.accepted
      && WrappedDifference(s.wrCnt, s.rdCnt) == |s.accepted| - |s.sent| <= |buf|
      && s.rdIndex == Slot(s.rdCnt, |buf|)
      && (s.pc == Idle ==> s.wrIndex == Slot(s.wrCnt, |buf|))
  {
    InitInv(buf);
    RunKeeps(Init(buf), events);
    var s := Run(Init(buf), events);
    WrappedDistance(|s.accepted|, |s.sent|);
    IndexOfWrapped(|s.accepted|, |buf|);
    IndexOfWrapped(|s.sent|, |buf|);
  }

  function Irqs(n: nat): seq<Event> { seq(n, _ => Irq) }

  /** Once the task stays out, one interrupt for each pending byte sends them all, in order,
      and one more switches the transmitter off. */
  lemma {:induction false} Drains(s: State)
    requires Inv(s) && s.pc == Idle
    ensures Run(s, Irqs(Pending(s))).sent == s.accepted
    ensures var off := Run(s, Irqs(Pending(s) + 1)); off.sent == s.accepted && !off.run && !off.txeie
    decreases Pending(s)
  {
    var n := Pending(s);
    IrqKeeps(s);
    assert Irqs(n + 1)[1..] == Irqs(n);
    if n > 0 {
      assert Irqs(n)[1..] == Irqs(n - 1);
      Drains(IrqStep(s));
    } else {
      assert s.sent == s.accepted;
      RunNothing(IrqStep(s));
    }
  }

  lemma RunNothing(s: State)
    ensures Run(s, Irqs(0)) == s
  {
  }

  /** The whole effect of putchar when no interrupt comes between its statements. */
  function Putchar(s: State, c: byte): State {
    if WrappedDifference(s.wrCnt, s.rdCnt) >= s.Depth() || s.wrIndex >= |s.buf| then s
    else s.(buf := s.buf[s.wrIndex := c], wrIndex := if s.wrIndex + 1 >= s.Depth() then 0 else s.wrIndex + 1,
            wrCnt := Wrapped(s.wrCnt + 1), accepted := s.accepted + [c],
            run := true, txeie := s.txeie || !s.run)
  }

  lemma RunOnce(s: State, e: Event, events: seq<Event>)
    ensures Run(s, [e] + events) == Run(Step(s, e), events)
  {
  }

  function Tasks(n: nat): seq<Event> { seq(n, _ => Task) }

  function FourSteps(s: State): State {
    TaskStep(TaskStep(TaskStep(TaskStep(s))))
  }

  lemma RunFourTasks(s: State, n: nat)
    ensures Run(s, Tasks(n + 4)) == Run(FourSteps(s), Tasks(n))
  {
    hide TaskStep;
    RunTask(s, n + 3);
    RunTask(TaskStep(s), n + 2);
    RunTask(TaskStep(TaskStep(s)), n + 1);
    RunTask(TaskStep(TaskStep(TaskStep(s))), n);
  }

  lemma RunTask(s: State, n: nat)
    ensures Run(s, Tasks(n + 1)) == Run(TaskStep(s), Tasks(n))
  {
    assert Tasks(n + 1) == [Task] + Tasks(n);
    RunOnce(s, Task, Tasks(n));
  }

  lemma AddByte(s: State, c: byte)
    requires s.pc == Store(c) && s.wrIndex < |s.buf|
    ensures FourSteps(s)
         == s.(pc := TestRun, buf := s.buf[s.wrIndex := c],
               wrIndex := if s.wrIndex + 1 >= s.Depth() then 0 else s.wrIndex + 1,
               wrCnt := Wrapped(s.wrCnt + 1), accepted := s.accepted + [c])
  {
  }

  lemma SwitchOn(s: State)
    requires s.pc == TestRun
    ensures FourSteps(s) == s.(pc := Idle, run := true, txeie := s.txeie || !s.run)
  {
  }

  lemma PutcharWithRoom(s: State, c: byte)
    requires s.pc == Idle && s.wrIndex < |s.buf| && WrappedDifference(s.wrCnt, s.rdCnt) < s.Depth()
    ensures Run(s, [Call(c)] + Tasks(8)) == Putchar(s, c)
  {
    hide WrappedDifference, Wrapped, FourSteps, TaskStep, Run;
    RunOnce(s, Call(c), Tasks(8));
    var s0 := s.(pc := Store(c));
    RunFourTasks(s0, 4);
    AddByte(s0, c);
    var s1 := FourSteps(s0);
    RunFourTasks(s1, 0);
    SwitchOn(s1);
    RunEmpty(FourSteps(s1));
  }

  lemma PutcharWhenFull(s: State, c: byte)
    requires s.pc == Idle && WrappedDifference(s.wrCnt, s.rdCnt) >= s.Depth()
    ensures Run(s, [Call(c)] + Tasks(8)) == Putchar(s, c)
  {
    hide WrappedDifference, Wrapped, FourSteps, TaskStep, Run;
    RunOnce(s, Call(c), Tasks(8));
    RunFourTasks(s, 4);
    RunFourTasks(s, 0);
    StayIdle(s);
    RunEmpty(s);
  }

  /** It is the run of its statements. */
  lemma PutcharIsItsStatements(s: State, c: byte)
    requires Inv(s) && s.pc == Idle
    ensures Run(s, [Call(c)] + Tasks(8)) == Putchar(s, c)
    ensures Inv(Putchar(s, c))
    ensures Putchar(s, c).accepted == if Pending(s) < s.Depth() then s.accepted + [c] else s.accepted
  {
    hide Slot, Slots, WrappedDifference, Wrapped, Wakeup, TaskStep, Run;
    RunKeeps(s, [Call(c)] + Tasks(8));
    WrappedDistance(|s.accepted|, |s.sent|);
    if Pending(s) < s.Depth() {
      PutcharWithRoom(s, c);
    } else {
      PutcharWhenFull(s, c);
    }
  }

  lemma StayIdle(s: State)
    requires s.pc == Idle
    ensures FourSteps(s) == s
  {
  }

  lemma RunEmpty(s: State)
    ensures Run(s, Tasks(0)) == s
  {
  }

  // ----- the driver object

  /** The transmit fields of uart_t together with the TXEIE bit of the control register. */
  class Uart {
    var txBuf: array<byte>
    var txWrIndex: nat
    var txWrCnt: u32
    var txRdIndex: nat
    var txRdCnt: u32
    var txRun: bool
    var txeie: bool
    ghost var accepted: seq<byte>
    ghost var sent: seq<byte>

    ghost function Now(): State
      reads this, txBuf
    {
      State(txBuf[..], txWrIndex, txWrCnt, txRdIndex, txRdCnt, txRun, txeie, Idle, accepted, sent)
    }

    ghost predicate Valid()
      reads this, txBuf
    {
      Inv(Now())
    }

    constructor (depth: nat)
      requires DividesWord(depth)
      ensures Valid() && fresh(txBuf) && txBuf.Length == depth
      ensures Now() == Init(txBuf[..])
    {
      txBuf := new byte[depth];
      txWrIndex, txWrCnt, txRdIndex, txRdCnt := 0, 0, 0, 0;
      txRun, txeie := false, false;
      accepted, sent := [], [];
      new;
      InitInv(txBuf[..]);
    }

    /** uart1_putchar */
    method PutChar(c: byte) returns (ok: bool)
      requires Valid()
      modifies this, txBuf
      ensures Valid() && txBuf == old(txBuf)
      ensures Now() == Putchar(old(Now()), c)
      ensures ok == (|old(accepted)| - |old(sent)| < txBuf.Length)
    {
      hide Slot, Slots, WrappedDifference, Wrapped, Wakeup, Run;
      PutcharIsItsStatements(Now(), c);
      WrappedDistance(|accepted|, |sent|);
      if WrappedDifference(txWrCnt, txRdCnt) >= txBuf.Length {
        return false;
      }
      txBuf[txWrIndex] := c;
      assert txBuf[..] == old(txBuf[..])[txWrIndex := c];
      txWrIndex := txWrIndex + 1;
      if txWrIndex >= txBuf.Length {
        txWrIndex := 0;
      }
      txWrCnt := Wrapped(txWrCnt + 1);
      accepted := accepted + [c];
      if txRun == false {
        txRun := true;
        txeie := true;
      }
      ok := true;
    }

    /** The transmit part of LPUART1_IRQHandler with the data register empty; `out` is what it writes to TDR. */
    method TxInterrupt() returns (out: seq<byte>)
      requires Valid()
      modifies this
      ensures Valid() && txBuf == old(txBuf)
      ensures Now() == IrqStep(old(Now()))
      ensures sent == old(sent) + out
    {
      IrqKeeps(Now());
      out := [];
      if txeie {
        if txWrCnt == txRdCnt {
          txeie := false;
          txRun := false;
        } else {
          var c := txBuf[txRdIndex];
          txRdIndex := txRdIndex + 1;
          if txRdIndex >= txBuf.Length {
            txRdIndex := 0;
          }
          txRdCnt := Wrapped(txRdCnt + 1);
          out := [c];
          sent := sent + [c];
        }
      }
    }
  }
}
