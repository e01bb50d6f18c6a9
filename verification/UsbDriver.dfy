/** An endpoint of the USB device controller driver: what each callback and task entry point does to its state. */
module UsbDriver {
  import opened Bytes
  import opened UsbStatus

  datatype EdState = Idle | DataTx | DataRx | StatusTx | StatusRx

  datatype Code = Success | BufferOverflow | TransferStalled | BusReset

  /** Calls into the HAL. `from` is an offset into the data buffer of the request; the empty forms have no buffer. */
  datatype HalCall =
    | Transmit(from: nat, len: nat)
    | TransmitEmpty
    | Receive(from: nat, len: nat)
    | ReceiveEmpty
    | SetStall(inward: bool)
    | ClearStall

  /** The endpoint descriptor, its transfer request, and the HAL calls made so far. */
  datatype Pipe = Pipe(
    status: Word, state: EdState, inward: bool,
    setup: seq<byte>, requested: nat, actual: nat, inLength: nat, current: nat, forceZlp: bool,
    code: Code, completed: bool, calls: seq<HalCall>)

  /** The packet size of endpoint 0 and UX_SLAVE_REQUEST_CONTROL_MAX_LENGTH. */
  datatype Config = Config(maxPacket: nat, maxLength: nat)

  const REQUEST_IN := 0x80

  predicate IsSetupPacket(packet: seq<byte>) { |packet| == 8 }

  /** wLength, little endian. */
  function DataLength(packet: seq<byte>): nat
    requires IsSetupPacket(packet)
  {
    var high: nat := packet[7];
    packet[6] + 256 * high
  }

  /** The store of _ux_dcd_stm32_endpoint_stall, whose load saw `loaded`: nothing keeps interrupts out between. */
  function StoreStall(p: Pipe, loaded: Word): Pipe {
    p.(status := loaded + STALLED, calls := p.calls + [SetStall(p.inward)])
  }

  /** _ux_dcd_stm32_endpoint_stall with no interrupt inside. */
  function EndpointStall(p: Pipe): Pipe { StoreStall(p, p.status) }

  /** _ux_dcd_stm32_endpoint_reset */
  function EndpointReset(p: Pipe): Pipe {
    p.(status := p.status - (STALLED + DONE + SETUP), state := Idle, calls := p.calls + [ClearStall])
  }

  /** HAL_PCD_SetupStageCallback */
  function SetupStage(p: Pipe, packet: seq<byte>, c: Config): Pipe
    requires IsSetupPacket(packet)
  {
    var q := p.(setup := packet, actual := 0, code := Success, status := p.status - (STALLED + TRANSFER + DONE));
    if packet[0] >= REQUEST_IN then q.(status := q.status + SETUP_IN)
    else if DataLength(packet) == 0 then q.(inward := false, status := q.status + SETUP_STATUS)
    else ExpectData(q.(inward := false), DataLength(packet), c)
  }

  /** An OUT request with data: the first reception is armed. An oversized one is stalled and still posted. */
  function ExpectData(p: Pipe, length: nat, c: Config): Pipe {
    if length > c.maxLength then
      var q := EndpointStall(p.(requested := length));
      q.(state := Idle, status := q.status + SETUP_STATUS)
    else p.(requested := length, actual := 0, current := 0, state := DataRx,
            calls := p.calls + [Receive(0, length)])
  }

  /** HAL_PCD_DataInStageCallback for endpoint 0 */
  function DataInStage(p: Pipe, c: Config): Pipe {
    if p.state != DataTx then p else
    var q := p.(calls := p.calls + [ReceiveEmpty]);
    if p.inLength <= c.maxPacket then
      if p.forceZlp then q.(calls := q.calls + [TransmitEmpty], forceZlp := false)
      else q.(code := Success, completed := true, actual := p.requested, status := p.status + DONE,
              state := StatusRx)
    else
      var rest := p.inLength - c.maxPacket;
      var length := if rest > c.maxPacket then c.maxPacket else rest;
      q.(current := p.current + c.maxPacket, inLength := p.inLength - length,
         calls := q.calls + [Transmit(p.current + c.maxPacket, length)])
  }

  /** HAL_PCD_DataOutStageCallback for endpoint 0, after `count` bytes came in */
  function DataOutStage(p: Pipe, count: nat, c: Config): Pipe {
    if p.state != DataRx then p else
    var q := p.(actual := p.actual + count);
    if q.actual <= q.requested then
      if q.actual == q.requested || count != c.maxPacket then q.(status := q.status + SETUP_OUT)
      else q.(current := q.current + c.maxPacket,
              calls := q.calls + [Receive(q.current + c.maxPacket, c.maxPacket)])
    else q.(code := BufferOverflow, status := q.status + DONE)
  }

  /** HAL_PCD_DataInStageCallback for the other endpoints */
  function InComplete(p: Pipe): Pipe {
    if p.forceZlp && p.requested != 0 then
      p.(forceZlp := false, inLength := 0, calls := p.calls + [TransmitEmpty])
    else p.(code := Success, completed := true, actual := p.requested, status := p.status + DONE)
  }

  /** HAL_PCD_DataOutStageCallback for the other endpoints */
  function OutComplete(p: Pipe, count: nat): Pipe {
    p.(actual := count, code := Success, completed := true, status := p.status + DONE)
  }

  /** _ux_dcd_stm32_transfer_run */
  function TransferRun(p: Pipe, busReset: bool, dataOutPhase: bool): (Pipe, Verdict) {
    if busReset then (p.(code := BusReset), Exit)
    else if p.status * STALLED != {} then (p.(code := TransferStalled), Next)
    else if p.status * TRANSFER != {} then
      if p.status * DONE != {} then (p.(status := p.status * (USED + STALLED + TASK_PENDING)), Next)
      else (p, Wait)
    else
      var call := if dataOutPhase then Transmit(0, p.requested) else Receive(0, p.requested);
      (p.(status := p.status + TRANSFER, calls := p.calls + [call]), Wait)
  }

  /** What a SETUP packet does, by its bytes: bit 7 of byte 0 is the direction, bytes 6 and 7 are the length with the low
      byte first. A request without data or for reading is posted; a write is received, or stalled and posted if it does
      not fit. */
  lemma SetupPacketDecides(p: Pipe, packet: seq<byte>, length: nat, c: Config)
    requires |packet| == 8 && length < 65536 && packet[6] == length % 256 && packet[7] == length / 256
    ensures var q := SetupStage(p, packet, c);
            && q.setup == packet && q.actual == 0 && q.code == Success && (packet[0] < 128 ==> !q.inward)
            && q.calls == p.calls + (if packet[0] >= 128 || length == 0 then []
                                     else if length <= c.maxLength then [Receive(0, length)] else [SetStall(false)])
            && (Stalled in q.status <==> packet[0] < 128 && length > c.maxLength)
            && (packet[0] >= 128 ==> SETUP_IN <= q.status)
            && (packet[0] < 128 && (length == 0 || length > c.maxLength) ==> SETUP_STATUS <= q.status)
            && (packet[0] < 128 && length > 0 ==> q.requested == length)
            && (packet[0] < 128 && length > c.maxLength ==> q.state == Idle)
            && q.status * SETUP <= p.status * SETUP + (if packet[0] >= 128 then SETUP_IN else SETUP_STATUS)
            && (packet[0] < 128 && 0 < length <= c.maxLength ==>
                  q.state == DataRx && q.current == q.actual == 0 && q.status * SETUP == p.status * SETUP)
  {
    assert length == length % 256 + 256 * (length / 256);
  }

  /** The callbacks of the other endpoints: data that asks for an empty packet behind it is followed by one, once;
      otherwise the transfer is done, with the requested length or the length that came. */
  lemma CallbacksComplete(p: Pipe, count: nat)
    ensures var q := InComplete(p);
            if p.forceZlp && p.requested > 0 then
              q.calls == p.calls + [TransmitEmpty] && !q.forceZlp && q.inLength == 0 && q.status == p.status
            else q.calls == p.calls && q.status == p.status + {Done} && q.completed && q.code == Success
                 && q.actual == p.requested && q.forceZlp == p.forceZlp
    ensures var q := OutComplete(p, count);
            && q.calls == p.calls && q.status == p.status + {Done} && q.completed && q.code == Success && q.actual == count
  {
  }

  /** After a reset the callbacks of a data stage of endpoint 0 find nothing to do, until the next request. */
  lemma ResetEndsDataStages(p: Pipe, count: nat, c: Config)
    ensures var q := EndpointReset(p);
            && q.calls == p.calls + [ClearStall] && q.status == p.status - {Stalled, Done, SetupLow, SetupHigh}
            && DataInStage(q, c) == q && DataOutStage(q, count, c) == q
  {
  }

  // ----- the deferred dispatcher, in the pieces between which interrupts may run

  /** The critical section of _ux_dcd_stm32_setup_isr_pending: no bits when there is nothing to do. */
  function ClaimSetup(p: Pipe): (Pipe, Word) {
    if p.status * TASK_PENDING != {} then (p, {})
    else if p.status * SETUP == {} then (p, {})
    else (p.(status := p.status - SETUP + TASK_PENDING), p.status * SETUP)
  }

  /** The handler of that kind, up to its call of the control request dispatcher. */
  function BeforeProcess(p: Pipe, kind: Word): Pipe {
    if kind == SETUP_IN then p.(inward := true, state := DataTx)
    else if kind == SETUP_OUT then p.(code := Success, inward := true)
    else p.(inward := true)
  }

  /** The rest of the handler; `ok` is the dispatcher's answer. */
  function AfterProcess(p: Pipe, kind: Word, ok: bool): Pipe {
    if kind == SETUP_IN || !ok then p
    else if kind == SETUP_OUT then p.(state := StatusTx, calls := p.calls + [TransmitEmpty])
    else p.(state := StatusRx, calls := p.calls + [TransmitEmpty])
  }

  /** The store of the last statement, whose load saw `loaded`; it is outside the critical section as well. */
  function StoreRelease(p: Pipe, loaded: Word): Pipe {
    p.(status := loaded - TASK_PENDING)
  }

  /** The last statement with no interrupt inside. */
  function ReleaseTask(p: Pipe): Pipe { StoreRelease(p, p.status) }

  /** What a dispatch does, kind by kind: a read goes on to its data stage; an accepted write, or request without data,
      is answered with one empty packet and waits for its status stage; one that is not accepted is left alone. */
  lemma HandlersByKind(p: Pipe, ok: bool)
    ensures var q := AfterProcess(BeforeProcess(p, {SetupLow}), {SetupLow}, ok);
            q == p.(inward := true, state := DataTx)
    ensures var q := AfterProcess(BeforeProcess(p, {SetupLow, SetupHigh}), {SetupLow, SetupHigh}, ok);
            q == p.(inward := true, code := Success, state := if ok then StatusTx else p.state,
                    calls := p.calls + if ok then [TransmitEmpty] else [])
    ensures var q := AfterProcess(BeforeProcess(p, {SetupHigh}), {SetupHigh}, ok);
            q == p.(inward := true, state := if ok then StatusRx else p.state,
                    calls := p.calls + if ok then [TransmitEmpty] else [])
  {
    assert SetupLow !in {SetupHigh} && SetupHigh !in {SetupLow};
  }

  // ----- the driver object

  class Endpoint {
    const number: nat
    const c: Config
    var status: Word
    var state: EdState
    var inward: bool
    var setup: seq<byte>
    var requested: nat
    var actual: nat
    var inLength: nat
    var current: nat
    var forceZlp: bool
    var code: Code
    var completed: bool
    ghost var calls: seq<HalCall>

    ghost function Now(): Pipe
      reads this
    {
      Pipe(status, state, inward, setup, requested, actual, inLength, current, forceZlp, code, completed, calls)
    }

    constructor (number: nat, c: Config)
      ensures this.number == number && this.c == c && status == USED && state == Idle && calls == []
    {
      this.number, this.c := number, c;
      status, state, inward, setup := USED, Idle, false, [];
      requested, actual, inLength, current, forceZlp := 8, 0, 8, 0, false;
      code, completed, calls := Success, false, [];
    }

    method Stall()
      modifies this
      ensures Now() == EndpointStall(old(Now()))
    {
      status := status + STALLED;
      calls := calls + [SetStall(inward)];
    }

    method Reset()
      modifies this
      ensures Now() == EndpointReset(old(Now()))
    {
      status := status - (STALLED + DONE + SETUP);
      state := Idle;
      calls := calls + [ClearStall];
    }

    method OnSetup(packet: seq<byte>)
      requires IsSetupPacket(packet)
      modifies this
      ensures Now() == SetupStage(old(Now()), packet, c)
    {
      setup, actual, code := packet, 0, Success;
      status := status - (STALLED + TRANSFER + DONE);
      if setup[0] >= REQUEST_IN {
        status := status + SETUP_IN;
        return;
      }
      inward := false;
      hide ExpectData;
      if setup[6] == 0 && setup[7] == 0 {
        status := status + SETUP_STATUS;
        return;
      }
      OnExpectData(DataLength(setup));
    }

    method OnExpectData(length: nat)
      modifies this
      ensures Now() == ExpectData(old(Now()), length, c)
    {
      requested := length;
      if requested > c.maxLength {
        Stall();
        state := Idle;
        status := status + SETUP_STATUS;
        return;
      }
      actual, current := 0, 0;
      calls := calls + [Receive(current, requested)];
      state := DataRx;
    }

    method OnDataIn()
      modifies this
      ensures Now() == if number == 0 then DataInStage(old(Now()), c) else InComplete(old(Now()))
    {
      if number == 0 {
        OnControlDataIn();
      } else if forceZlp && requested != 0 {
        forceZlp, inLength := false, 0;
        calls := calls + [TransmitEmpty];
      } else {
        code, completed, actual := Success, true, requested;
        status := status + DONE;
      }
    }

    method OnControlDataIn()
      modifies this
      ensures Now() == DataInStage(old(Now()), c)
    {
      if state != DataTx {
        return;
      }
      calls := calls + [ReceiveEmpty];
      if inLength <= c.maxPacket {
        if forceZlp {
          calls := calls + [TransmitEmpty];
          forceZlp := false;
        } else {
          code, completed, actual := Success, true, requested;
          status := status + DONE;
          state := StatusRx;
        }
      } else {
        var length := inLength - c.maxPacket;
        if length > c.maxPacket {
          length := c.maxPacket;
        }
        current := current + c.maxPacket;
        inLength := inLength - length;
        calls := calls + [Transmit(current, length)];
      }
    }

    method OnDataOut(count: nat)
      modifies this
      ensures Now() == if number == 0 then DataOutStage(old(Now()), count, c) else OutComplete(old(Now()), count)
    {
      if number == 0 {
        OnControlDataOut(count);
      } else {
        actual, code, completed := count, Success, true;
        status := status + DONE;
      }
    }

    method OnControlDataOut(count: nat)
      modifies this
      ensures Now() == DataOutStage(old(Now()), count, c)
    {
      if state != DataRx {
        return;
      }
      actual := actual + count;
      if actual <= requested {
        if actual == requested || count != c.maxPacket {
          status := status + SETUP_OUT;
        } else {
          current := current + c.maxPacket;
          calls := calls + [Receive(current, c.maxPacket)];
        }
      } else {
        code := BufferOverflow;
        status := status + DONE;
      }
    }

    method Run(busReset: bool, dataOutPhase: bool) returns (verdict: Verdict)
      modifies this
      ensures (Now(), verdict) == TransferRun(old(Now()), busReset, dataOutPhase)
    {
      if busReset {
        code := BusReset;
        return Exit;
      }
      if status * STALLED != {} {
        code := TransferStalled;
        return Next;
      }
      if status * TRANSFER != {} {
        if status * DONE != {} {
          status := status * (USED + STALLED + TASK_PENDING);
          return Next;
        }
        return Wait;
      }
      status := status + TRANSFER;
      calls := calls + [if dataOutPhase then Transmit(0, requested) else Receive(0, requested)];
      return Wait;
    }

    /** _ux_dcd_stm32_setup_isr_pending with no interrupt inside; `ok` is what the request dispatcher answers. */
    method SetupIsrPending(ok: bool) returns (kind: Word)
      modifies this
      ensures kind == ClaimSetup(old(Now())).1
      ensures kind == {} ==> Now() == old(Now())
      ensures kind != {} ==>
                Now() == ReleaseTask(AfterProcess(BeforeProcess(ClaimSetup(old(Now())).0, kind), kind, ok))
    {
      if status * TASK_PENDING != {} {
        return {};
      }
      kind := status * SETUP;
      if kind == {} {
        return;
      }
      status := status - SETUP;
      status := status + TASK_PENDING;
      inward := true;
      if kind == SETUP_IN {
        state := DataTx;
      } else if kind == SETUP_OUT {
        code := Success;
        if ok {
          state := StatusTx;
          calls := calls + [TransmitEmpty];
        }
      } else if ok {
        state := StatusRx;
        calls := calls + [TransmitEmpty];
      }
      status := status - TASK_PENDING;
    }
  }
}
