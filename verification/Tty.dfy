/**
 The terminal input path as a whole: packets and serial bytes go into their rings, and the polled task drains
 both rings through their line editors.
 */
module Tty {
  import opened Bytes
  import UsbStream
  import UartRx
  import RingArithmetic
  import opened LineEditor

  // ----- the USB side as a function of its events

  /** Take: one iteration of the polling loop. Packets may arrive between any two of them. */
  datatype Event = Packet(data: seq<byte>) | Take

  datatype Session = Session(queue: seq<byte>, line: seq<byte>, delivered: seq<seq<byte>>, accepted: seq<byte>)

  const START := Session([], [], [], [])

  /** A packet is accepted whole when it fits into the ring; the loop edits one byte at a time. */
  function Step(s: Session, e: Event, size: nat, limit: nat): Session {
    match e
    case Packet(data) =>
      if |s.queue| + |data| < size then s.(queue := s.queue + data, accepted := s.accepted + data) else s
    case Take => if s.queue == [] then s else TakeOne(s, limit)
  }

  function TakeOne(s: Session, limit: nat): Session
    requires s.queue != []
  {
    var ch := s.queue[0];
    Session(s.queue[1..], if Terminates(ch) then [] else TypeChar(s.line, ch, limit),
            s.delivered + (if Terminates(ch) && s.line != [] then [s.line] else []), s.accepted)
  }

  function Run(s: Session, events: seq<Event>, size: nat, limit: nat): Session
    decreases |events|
  {
    if events == [] then s else Run(Step(s, events[0], size, limit), events[1..], size, limit)
  }

  /** Delivered and still to be delivered make up the commands of all accepted bytes. */
  ghost predicate Consistent(s: Session, limit: nat) {
    && s.delivered + Commands(s.line, s.queue, limit) == Commands([], s.accepted, limit)
    && Remainder(s.line, s.queue, limit) == Remainder([], s.accepted, limit)
  }

  lemma StepConsistent(s: Session, e: Event, size: nat, limit: nat)
    requires Consistent(s, limit)
    ensures Consistent(Step(s, e, size, limit), limit)
  {
    hide Commands, Remainder, TypeChar;
    match e
    case Packet(data) =>
      CommandsConcat(s.line, s.queue, data, limit);
      CommandsConcat([], s.accepted, data, limit);
    case Take =>
      if s.queue != [] { CommandsHead(s.line, s.queue, limit); }
  }

  lemma {:induction false} RunConsistent(s: Session, events: seq<Event>, size: nat, limit: nat)
    requires Consistent(s, limit)
    ensures Consistent(Run(s, events, size, limit), limit)
    decreases |events|
  {
    hide Consistent, Step;
    if events != [] {
      StepConsistent(s, events[0], size, limit);
      RunConsistent(Step(s, events[0], size, limit), events[1..], size, limit);
    }
  }

  /** Whenever the queue is empty, the strings delivered are the commands of the accepted bytes and the line is
      their unfinished rest: neither packet boundaries nor polling times show. */
  lemma DeliveredIsCommandsOfAccepted(events: seq<Event>, size: nat, limit: nat)
    ensures var s := Run(START, events, size, limit);
            s.queue == [] ==> s.delivered == Commands([], s.accepted, limit) && s.line == Remainder([], s.accepted, limit)
  {
    hide Commands, Remainder, Run;
    CommandsOfNothing([], limit);
    RunConsistent(START, events, size, limit);
    CommandsOfNothing(Run(START, events, size, limit).line, limit);
  }

  /** At any other moment they are an initial part of those commands, in order. */
  lemma DeliveredIsPrefix(events: seq<Event>, size: nat, limit: nat)
    ensures Run(START, events, size, limit).delivered <= Commands([], Run(START, events, size, limit).accepted, limit)
  {
    hide Commands, Remainder, Run;
    CommandsOfNothing([], limit);
    RunConsistent(START, events, size, limit);
  }

  /** What the loop leaves when nothing arrives while it runs. */
  function Drained(s: Session, limit: nat): Session {
    Session([], Remainder(s.line, s.queue, limit), s.delivered + Commands(s.line, s.queue, limit), s.accepted)
  }

  function Takes(n: nat): seq<Event> { seq(n, _ => Take) }

  lemma {:induction false} TakesDrain(s: Session, size: nat, limit: nat)
    ensures Run(s, Takes(|s.queue|), size, limit) == Drained(s, limit)
    decreases |s.queue|
  {
    hide Commands, Remainder, TypeChar;
    if s.queue == [] {
      CommandsOfNothing(s.line, limit);
    } else {
      CommandsHead(s.line, s.queue, limit);
      assert Takes(|s.queue|)[1..] == Takes(|s.queue| - 1);
      TakesDrain(TakeOne(s, limit), size, limit);
    }
  }

  // ----- the serial side, statement by statement

  /** The receive ring of the UART with the line editor behind getchar. */
  datatype Serial = Serial(ring: UartRx.State, line: seq<byte>, delivered: seq<seq<byte>>)

  /** The byte getchar returns goes into the editor; interrupts and the other statements leave the editor alone. */
  function SerialStep(s: Serial, e: UartRx.Event, limit: nat): Serial {
    var t := s.(ring := UartRx.Step(s.ring, e));
    if e == UartRx.Task && s.ring.pc.Count? then
      var ch := s.ring.pc.c;
      t.(line := if Terminates(ch) then [] else TypeChar(s.line, ch, limit),
         delivered := s.delivered + (if Terminates(ch) && s.line != [] then [s.line] else []))
    else t
  }

  function SerialRun(s: Serial, events: seq<UartRx.Event>, limit: nat): Serial
    decreases |events|
  {
    if events == [] then s else SerialRun(SerialStep(s, events[0], limit), events[1..], limit)
  }

  /** What was delivered is the commands of the bytes taken out of the ring. */
  ghost predicate SerialInv(s: Serial, limit: nat) {
    UartRx.Inv(s.ring) && Remains(s.delivered, s.line, [], limit, Commands([], s.ring.taken, limit),
                                  Remainder([], s.ring.taken, limit))
  }

  lemma EditorTakes(s: Serial, ch: byte, limit: nat)
    requires Remains(s.delivered, s.line, [], limit, Commands([], s.ring.taken, limit), Remainder([], s.ring.taken, limit))
    ensures Remains(s.delivered + (if Terminates(ch) && s.line != [] then [s.line] else []),
                    if Terminates(ch) then [] else TypeChar(s.line, ch, limit), [], limit,
                    Commands([], s.ring.taken + [ch], limit), Remainder([], s.ring.taken + [ch], limit))
  {
    hide Commands, Remainder, TypeChar;
    CommandsOfNothing(s.line, limit);
    CommandsConcat([], s.ring.taken, [ch], limit);
    assert [ch] + [] == [ch];
    RemainsFed(s.delivered, s.line, ch, [], limit,
               Commands([], s.ring.taken + [ch], limit), Remainder([], s.ring.taken + [ch], limit));
  }

  lemma SerialStepKeeps(s: Serial, e: UartRx.Event, limit: nat)
    requires SerialInv(s, limit)
    ensures SerialInv(SerialStep(s, e, limit), limit)
  {
    hide Commands, Remainder, TypeChar, Remains, UartRx.Inv, UartRx.RxStep, UartRx.TaskStep, UartRx.Queue;
    UartRx.StepRefines(s.ring, e);
    match e
    case Received(c) => UartRx.ReceivedRefines(s.ring, c);
    case Call => UartRx.CallRefines(s.ring);
    case Task =>
      UartRx.TaskRefines(s.ring);
      if s.ring.pc.Count? { EditorTakes(s, s.ring.pc.c, limit); }
  }

  lemma {:induction false} SerialRunKeeps(s: Serial, events: seq<UartRx.Event>, limit: nat)
    requires SerialInv(s, limit)
    ensures SerialInv(SerialRun(s, events, limit), limit)
    ensures SerialRun(s, events, limit).ring == UartRx.Run(s.ring, events)
    decreases |events|
  {
    hide SerialInv, UartRx.Step;
    if events != [] {
      SerialStepKeeps(s, events[0], limit);
      SerialRunKeeps(SerialStep(s, events[0], limit), events[1..], limit);
    }
  }

  /** Whatever interrupts come between whatever statements: the strings delivered are an initial part of the commands
      of the bytes the ring has accepted, and all of them whenever the ring's queue is empty. */
  lemma SerialDeliversCommandsOfAccepted(buf: seq<byte>, events: seq<UartRx.Event>, limit: nat)
    requires RingArithmetic.DividesWord(|buf|)
    ensures var t := SerialRun(Serial(UartRx.Init(buf), [], []), events, limit);
            && t.ring == UartRx.Run(UartRx.Init(buf), events)
            && t.delivered <= Commands([], t.ring.accepted, limit)
            && (UartRx.Queue(t.ring) == [] ==>
                  t.delivered == Commands([], t.ring.accepted, limit)
                  && t.line == Remainder([], t.ring.accepted, limit))
  {
    hide Commands, Remainder, SerialRun, UartRx.Run;
    var s := Serial(UartRx.Init(buf), [], []);
    UartRx.InitInv(buf);
    CommandsOfNothing([], limit);
    SerialRunKeeps(s, events, limit);
    var t := SerialRun(s, events, limit);
    CommandsOfNothing(t.line, limit);
    var queue := UartRx.Queue(t.ring);
    assert t.ring.accepted == t.ring.taken + queue;
    CommandsConcat([], t.ring.taken, queue, limit);
    assert queue == [] ==> t.ring.accepted == t.ring.taken;
  }

  // ----- the driver

  class Terminal {
    const stream: UsbStream.Stream
    const usbLine: TtyBuf
    const uart: UartRx.Uart
    const uartLine: TtyBuf

    ghost predicate Valid()
      reads this, stream, stream.buffer, usbLine, usbLine.data, uart, uart.rxBuf, uartLine, uartLine.data
    {
      && usbLine != uartLine
      && stream.buffer != usbLine.data && stream.buffer != uart.rxBuf && stream.buffer != uartLine.data
      && usbLine.data != uart.rxBuf && usbLine.data != uartLine.data && uart.rxBuf != uartLine.data
      && stream.Valid() && usbLine.Valid() && uart.Valid() && uartLine.Valid()
    }

    constructor (streamSize: nat, uartDepth: nat, lineSize: nat)
      requires streamSize > 0 && lineSize > 0 && RingArithmetic.DividesWord(uartDepth)
      ensures Valid() && stream.Unread() == [] && usbLine.Line() == [] && usbLine.delivered == []
      ensures UartRx.Queue(uart.Now()) == [] && uartLine.Line() == [] && uartLine.delivered == []
    {
      stream := new UsbStream.Stream(streamSize);
      usbLine := new TtyBuf(lineSize);
      uart := new UartRx.Uart(uartDepth);
      uartLine := new TtyBuf(lineSize);
    }

    /** The USB side as a session. */
    ghost function Usb(accepted: seq<byte>): Session
      requires Valid()
      reads this, stream, stream.buffer, usbLine, usbLine.data, uart, uart.rxBuf, uartLine, uartLine.data
    {
      Session(stream.Unread(), usbLine.Line(), usbLine.delivered, accepted)
    }

    /** A packet arrives. */
    method OnPacket(data: seq<byte>, ghost accepted: seq<byte>)
      requires Valid()
      modifies stream, stream.buffer
      ensures Valid() && stream.buffer == old(stream.buffer)
      ensures exists more :: Usb(accepted + more)
                == Step(old(Usb(accepted)), Packet(data), stream.buffer.Length, usbLine.data.Length - 1)
      ensures uart.Now() == old(uart.Now())
    {
      stream.RxHandler(data);
      ghost var more := if |old(stream.Unread())| + |data| < stream.buffer.Length then data else [];
      assert accepted + [] == accepted;
      assert Usb(accepted + more)
          == Step(old(Usb(accepted)), Packet(data), stream.buffer.Length, usbLine.data.Length - 1);
    }

    /** tty_rx_task: both queues are emptied through their editors. */
    method RxTask()
      requires Valid()
      modifies stream, usbLine, usbLine.data, uart, uartLine, uartLine.data
      ensures Valid()
      ensures forall accepted :: Usb(accepted)
                == Drained(old(Usb(accepted)), usbLine.data.Length - 1)
      ensures UartRx.Queue(uart.Now()) == []
      ensures uartLine.Line() == Remainder(old(uartLine.Line()), old(UartRx.Queue(uart.Now())), uartLine.data.Length - 1)
      ensures uartLine.delivered == old(uartLine.delivered)
                + Commands(old(uartLine.Line()), old(UartRx.Queue(uart.Now())), uartLine.data.Length - 1)
    {
      hide Commands, Remainder, CleanLine, UartRx.Inv, UartRx.Queue;
      hide UsbStream.Stream.Valid, UsbStream.Stream.Unread, UartRx.Uart.Valid, TtyBuf.Line;
      DrainUsb();
      CommandsOfNothing(usbLine.Line(), usbLine.data.Length - 1);
      DrainUart();
      CommandsOfNothing(uartLine.Line(), uartLine.data.Length - 1);
    }

    method DrainUsb()
      requires Valid()
      modifies stream, usbLine, usbLine.data
      ensures Valid() && stream.buffer == old(stream.buffer) && usbLine.data == old(usbLine.data)
      ensures stream.Unread() == []
      ensures Remains(usbLine.delivered, usbLine.Line(), [], usbLine.data.Length - 1,
                      old(usbLine.delivered + Commands(usbLine.Line(), stream.Unread(), usbLine.data.Length - 1)),
                      old(Remainder(usbLine.Line(), stream.Unread(), usbLine.data.Length - 1)))
    {
      hide Commands, Remainder, CleanLine, TypeChar, Terminates, UartRx.Queue;
      hide UsbStream.Stream.Valid, UsbStream.Stream.Unread, UartRx.Uart.Valid, TtyBuf.Line;
      ghost var limit := usbLine.data.Length - 1;
      ghost var strings := usbLine.delivered + Commands(usbLine.Line(), stream.Unread(), limit);
      ghost var last := Remainder(usbLine.Line(), stream.Unread(), limit);
      var ch := stream.GetChar();
      while ch >= 0
        invariant Valid() && stream.buffer == old(stream.buffer) && usbLine.data == old(usbLine.data)
        invariant ch < 256 && (ch < 0 ==> stream.Unread() == [])
        invariant ch < 0 ==> Remains(usbLine.delivered, usbLine.Line(), [], limit, strings, last)
        invariant ch >= 0 ==>
                    Remains(usbLine.delivered, usbLine.Line(),
                            [ch as byte] + stream.Unread(), limit, strings, last)
        decreases ch >= 0, |stream.Unread()|
      {
        RemainsFed(usbLine.delivered, usbLine.Line(), ch, stream.Unread(), limit, strings, last);
        usbLine.Feed(ch);
        ch := stream.GetChar();
      }
    }

    method DrainUart()
      requires Valid()
      modifies uart, uartLine, uartLine.data
      ensures Valid() && uart.rxBuf == old(uart.rxBuf) && uartLine.data == old(uartLine.data)
      ensures UartRx.Queue(uart.Now()) == []
      ensures Remains(uartLine.delivered, uartLine.Line(), [], uartLine.data.Length - 1,
                      old(uartLine.delivered + Commands(uartLine.Line(), UartRx.Queue(uart.Now()), uartLine.data.Length - 1)),
                      old(Remainder(uartLine.Line(), UartRx.Queue(uart.Now()), uartLine.data.Length - 1)))
    {
      hide Commands, Remainder, CleanLine, TypeChar, Terminates, UartRx.Queue;
      hide UsbStream.Stream.Valid, UsbStream.Stream.Unread, UartRx.Uart.Valid, TtyBuf.Line;
      ghost var limit := uartLine.data.Length - 1;
      ghost var strings := uartLine.delivered + Commands(uartLine.Line(), UartRx.Queue(uart.Now()), limit);
      ghost var last := Remainder(uartLine.Line(), UartRx.Queue(uart.Now()), limit);
      var ch := uart.GetChar();
      while ch >= 0
        invariant Valid() && uart.rxBuf == old(uart.rxBuf) && uartLine.data == old(uartLine.data)
        invariant ch < 256 && (ch < 0 ==> UartRx.Queue(uart.Now()) == [])
        invariant ch < 0 ==> Remains(uartLine.delivered, uartLine.Line(), [], limit, strings, last)
        invariant ch >= 0 ==>
                    Remains(uartLine.delivered, uartLine.Line(),
                            [ch as byte] + UartRx.Queue(uart.Now()), limit, strings, last)
        decreases ch >= 0, |UartRx.Queue(uart.Now())|
      {
        RemainsFed(uartLine.delivered, uartLine.Line(), ch, UartRx.Queue(uart.Now()), limit, strings, last);
        uartLine.Feed(ch);
        ch := uart.GetChar();
      }
    }
  }
}
