/**
 The UART receive path: the interrupt handler stores bytes, uart1_getchar takes them out statement by statement.
 The ring refines a bounded first-in first-out queue whose capacity is the whole depth.
 `accepted` and `taken` record the history of the two sides.
 */
module UartRx {
  import opened Bytes
  import opened RingArithmetic

  /** Where the task is inside uart1_getchar. */
  datatype Pc =
    | Idle
    | Load                // c = rx_buf[rx_rd_index]
    | Increment(c: byte)  // ++rx_rd_index
    | Wrap(c: byte)       // if (rx_rd_index >= depth) rx_rd_index = 0
    | Count(c: byte)      // rx_rd_cnt++, then return c

  datatype State = State(
    buf: seq<byte>, wrIndex: nat, wrCnt: u32, rdIndex: nat, rdCnt: u32, pc: Pc,
    accepted: seq<byte>, taken: seq<byte>)
  {
    function Depth(): nat { |buf| }
  }

  /** Received(c): the interrupt handler runs with byte c. Call and Task: uart1_getchar starts, or goes on. */
  datatype Event = Received(c: byte) | Call | Task

  function Init(buf: seq<byte>): State {
    State(buf, 0, 0, 0, 0, Idle, [], [])
  }

  /** _u1_rx */
  function RxStep(s: State, c: byte): State {
    if WrappedDifference(s.wrCnt, s.rdCnt) >= s.Depth() then s
    else s.(buf := if s.wrIndex < |s.buf| then s.buf[s.wrIndex := c] else s.buf,
            wrIndex := if s.wrIndex + 1 >= s.Depth() then 0 else s.wrIndex + 1,
            wrCnt := Wrapped(s.wrCnt + 1), accepted := s.accepted + [c])
  }

  function TaskStep(s: State): State {
    match s.pc
    case Idle => s
    case Load => s.(pc := Increment(if s.rdIndex < |s.buf| then s.buf[s.rdIndex] else 0))
    case Increment(c) => s.(pc := Wrap(c), rdIndex := s.rdIndex + 1)
    case Wrap(c) => s.(pc := Count(c), rdIndex := if s.rdIndex >= s.Depth() then 0 else s.rdIndex)
    case Count(c) => s.(pc := Idle, rdCnt := Wrapped(s.rdCnt + 1), taken := s.taken + [c])
  }

  function Step(s: State, e: Event): State {
    match e
    case Received(c) => RxStep(s, c)
    case Call => if s.pc == Idle && s.rdCnt != s.wrCnt then s.(pc := Load) else s
    case Task => TaskStep(s)
  }

  function Run(s: State, events: seq<Event>): State
    decreases |events|
  {
    if events == [] then s else Run(Step(s, events[0]), events[1..])
  }

  // ----- the queue the ring stands for

  /** Every byte not yet taken is in its slot. */
  ghost predicate Holds(buf: seq<byte>, first: nat, accepted: seq<byte>) {
    |buf| > 0 && forall k :: first <= k < |accepted| ==> buf[Slot(k, |buf|)] == accepted[k]
  }

  ghost predicate Inv(s: State) {
    && DividesWord(s.Depth())
    && s.taken <= s.accepted && |s.accepted| - |s.taken| <= s.Depth()
    && s.wrCnt == Wrapped(|s.accepted|) && s.rdCnt == Wrapped(|s.taken|)
    && s.wrIndex == Slot(|s.accepted|, s.Depth())
    && s.rdIndex == (match s.pc
                     case Wrap(_) => Slot(|s.taken|, s.Depth()) + 1
                     case Count(_) => Slot(|s.taken| + 1, s.Depth())
                     case _ => Slot(|s.taken|, s.Depth()))
    && Holds(s.buf, |s.taken|, s.accepted)
    && (s.pc != Idle ==> |s.taken| < |s.accepted|)
    && (s.pc.Increment? || s.pc.Wrap? || s.pc.Count? ==> s.pc.c == s.accepted[|s.taken|])
  }

  /** What is in the queue. */
  function Queue(s: State): seq<byte> {
    if |s.taken| <= |s.accepted| then s.accepted[|s.taken|..] else []
  }

  /** A bounded queue takes a byte while it is not full. */
  function Offer(q: seq<byte>, capacity: nat, c: byte): seq<byte> {
    if |q| < capacity then q + [c] else q
  }

  lemma InitInv(buf: seq<byte>)
    requires DividesWord(|buf|)
    ensures Inv(Init(buf)) && Queue(Init(buf)) == []
  {
  }

  /** An interrupt, wherever it hits getchar, offers its byte to the queue: the capacity is the full depth. */
  lemma ReceivedRefines(s: State, c: byte)
    requires Inv(s)
    ensures Inv(RxStep(s, c)) && RxStep(s, c).Depth() == s.Depth()
    ensures Queue(RxStep(s, c)) == Offer(Queue(s), s.Depth(), c)
    ensures RxStep(s, c).pc == s.pc && RxStep(s, c).taken == s.taken
  {
    hide Slot, WrappedDifference, Wrapped, Holds;
    var d := s.Depth();
    WrappedDistance(|s.accepted|, |s.taken|);
    WrappedNext(|s.accepted|);
    NextSlot(|s.accepted|, d);
    if |s.accepted| - |s.taken| < d {
      StoreKeepsUnread(s.buf, |s.taken|, s.accepted, c);
    }
  }

  /** Storing a byte in the next slot does not touch the unread ones while one slot is free. */
  lemma StoreKeepsUnread(buf: seq<byte>, first: nat, accepted: seq<byte>, c: byte)
    requires first <= |accepted| < first + |buf| && Holds(buf, first, accepted)
    ensures Holds(buf[Slot(|accepted|, |buf|) := c], first, accepted + [c])
  {
    hide Slot;
    forall k | first <= k < |accepted| ensures Slot(k, |buf|) != Slot(|accepted|, |buf|) {
      DifferentSlots(k, |accepted|, |buf|);
    }
  }

  /** The front is in its slot, and the rest still is when the front has gone. */
  lemma FrontIsHeld(buf: seq<byte>, first: nat, accepted: seq<byte>)
    requires Holds(buf, first, accepted) && first < |accepted|
    ensures Slot(first, |buf|) < |buf| && buf[Slot(first, |buf|)] == accepted[first]
    ensures Holds(buf, first + 1, accepted)
  {
  }

  /** The statements of getchar leave the queue alone, except that counting the byte removes the front,
      and that front is the byte returned. */
  lemma TaskRefines(s: State)
    requires Inv(s)
    ensures Inv(TaskStep(s)) && TaskStep(s).Depth() == s.Depth()
    ensures s.pc.Count? ==> Queue(s) == [s.pc.c] + Queue(TaskStep(s)) && TaskStep(s).taken == s.taken + [s.pc.c]
    ensures !s.pc.Count? ==> Queue(TaskStep(s)) == Queue(s) && TaskStep(s).taken == s.taken
  {
    hide Slot, Wrapped, WrappedDifference, Holds;
    NextSlot(|s.taken|, s.Depth());
    WrappedNext(|s.taken|);
    if s.pc != Idle { FrontIsHeld(s.buf, |s.taken|, s.accepted); }
    if s.pc.Count? {
      assert s.accepted[|s.taken|..] == [s.pc.c] + s.accepted[|s.taken| + 1..];
    }
  }

  /** getchar as a whole, when no interrupt comes between its statements and a byte is there. */
  function Getchar(s: State): State {
    if |s.taken| < |s.accepted| then
      s.(rdIndex := if s.rdIndex + 1 >= s.Depth() then 0 else s.rdIndex + 1,
         rdCnt := Wrapped(s.rdCnt + 1), taken := s.taken + [s.accepted[|s.taken|]])
    else s
  }

  lemma GetcharRefines(s: State)
    requires Inv(s) && s.pc == Idle
    ensures s.rdCnt == s.wrCnt <==> Queue(s) == []
    ensures Queue(s) != [] ==>
              |s.taken| < |s.accepted| && s.rdIndex < |s.buf| && s.buf[s.rdIndex] == s.accepted[|s.taken|]
    ensures Queue(s) != [] ==> Inv(Getchar(s)) && Queue(s) == [s.accepted[|s.taken|]] + Queue(Getchar(s))
  {
    hide Slot, Wrapped, Holds;
    WrappedDistance(|s.accepted|, |s.taken|);
    NextSlot(|s.taken|, s.Depth());
    WrappedNext(|s.taken|);
    if |s.taken| < |s.accepted| {
      FrontIsHeld(s.buf, |s.taken|, s.accepted);
      assert s.accepted[|s.taken|..] == [s.accepted[|s.taken|]] + s.accepted[|s.taken| + 1..];
    }
  }

  /** getchar finds the ring empty exactly when the queue is. */
  lemma CallRefines(s: State)
    requires Inv(s)
    ensures Inv(Step(s, Call)) && Queue(Step(s, Call)) == Queue(s) && Step(s, Call).taken == s.taken
    ensures s.pc == Idle ==> (Step(s, Call).pc == Load <==> Queue(s) != [])
  {
    WrappedDistance(|s.accepted|, |s.taken|);
  }

  // ----- the abstract queue, run beside the ring

  /** A queue with the bytes delivered so far. `delivering` says that getchar is about to return. */
  datatype Ideal = Ideal(queue: seq<byte>, delivered: seq<byte>)

  function IdealStep(q: Ideal, capacity: nat, e: Event, returns_: bool): Ideal {
    match e
    case Received(c) => q.(queue := Offer(q.queue, capacity, c))
    case Call => q
    case Task => if returns_ && q.queue != [] then Ideal(q.queue[1..], q.delivered + [q.queue[0]]) else q
  }

  /** The abstract queue under the same events; the ring is consulted only for when getchar returns. */
  function IdealRun(q: Ideal, s: State, events: seq<Event>): Ideal
    decreases |events|
  {
    if events == [] then q else
      IdealRun(IdealStep(q, s.Depth(), events[0], s.pc.Count?), Step(s, events[0]), events[1..])
  }

  lemma StepRefines(s: State, e: Event)
    requires Inv(s)
    ensures Inv(Step(s, e)) && Step(s, e).Depth() == s.Depth()
    ensures IdealStep(Ideal(Queue(s), s.taken), s.Depth(), e, s.pc.Count?)
         == Ideal(Queue(Step(s, e)), Step(s, e).taken)
  {
    hide RxStep, TaskStep, Queue, Inv;
    match e
    case Received(c) => ReceivedRefines(s, c);
    case Call => CallRefines(s);
    case Task => TaskRefines(s);
  }

  /** Every interleaving delivers exactly what a bounded queue of that capacity delivers. */
  lemma {:induction false} RingIsBoundedQueue(s: State, events: seq<Event>)
    requires Inv(s)
    ensures Inv(Run(s, events))
    ensures IdealRun(Ideal(Queue(s), s.taken), s, events) == Ideal(Queue(Run(s, events)), Run(s, events).taken)
    decreases |events|
  {
    hide Step, IdealStep, Queue, Inv;
    if events != [] {
      StepRefines(s, events[0]);
      RingIsBoundedQueue(Step(s, events[0]), events[1..]);
    }
  }

  // ----- the driver object

  class Uart {
    var rxBuf: array<byte>
    var rxWrIndex: nat
    var rxWrCnt: u32
    var rxRdIndex: nat
    var rxRdCnt: u32
    ghost var accepted: seq<byte>
    ghost var taken: seq<byte>

    ghost function Now(): State
      reads this, rxBuf
    {
      State(rxBuf[..], rxWrIndex, rxWrCnt, rxRdIndex, rxRdCnt, Idle, accepted, taken)
    }

    ghost predicate Valid()
      reads this, rxBuf
    {
      Inv(Now())
    }

    constructor (depth: nat)
      requires DividesWord(depth)
      ensures Valid() && fresh(rxBuf) && rxBuf.Length == depth && Queue(Now()) == []
    {
      rxBuf := new byte[depth];
      rxWrIndex, rxWrCnt, rxRdIndex, rxRdCnt := 0, 0, 0, 0;
      accepted, taken := [], [];
      new;
      InitInv(rxBuf[..]);
    }

    /** _u1_rx */
    method RxByte(c: byte)
      requires Valid()
      modifies this, rxBuf
      ensures Valid() && rxBuf == old(rxBuf)
      ensures Queue(Now()) == Offer(old(Queue(Now())), rxBuf.Length, c)
      ensures taken == old(taken)
    {
      hide Slot, Wrapped, WrappedDifference, Holds;
      ReceivedRefines(Now(), c);
      if WrappedDifference(rxWrCnt, rxRdCnt) >= rxBuf.Length {
        return;
      }
      rxBuf[rxWrIndex] := c;
      assert rxBuf[..] == old(rxBuf[..])[rxWrIndex := c];
      rxWrIndex := rxWrIndex + 1;
      if rxWrIndex >= rxBuf.Length {
        rxWrIndex := 0;
      }
      rxWrCnt := Wrapped(rxWrCnt + 1);
      accepted := accepted + [c];
    }

    /** uart1_getchar with no interrupt inside: the front of the queue, or -1. */
    method GetChar() returns (ch: int)
      requires Valid()
      modifies this
      ensures Valid() && rxBuf == old(rxBuf)
      ensures -1 <= ch < 256
      ensures old(Queue(Now())) == [] ==> ch == -1 && Now() == old(Now())
      ensures old(Queue(Now())) != [] ==> ch >= 0 && old(Queue(Now())) == [ch] + Queue(Now())
    {
      hide Slot, Wrapped, Inv, Queue;
      GetcharRefines(Now());
      if rxRdCnt == rxWrCnt {
        return -1;
      }
      var c := rxBuf[rxRdIndex];
      rxRdIndex := rxRdIndex + 1;
      if rxRdIndex >= rxBuf.Length {
        rxRdIndex := 0;
      }
      rxRdCnt := Wrapped(rxRdCnt + 1);
      taken := taken + [c];
      ch := c;
      assert Now() == Getchar(old(Now()));
    }
  }
}
