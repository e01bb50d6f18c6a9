/** Control-OUT data stages: packets received into the control buffer, and when the request is posted. */
module UsbControlOut {
  import opened Bytes
  import opened UsbStatus
  import opened UsbDriver
  import opened UsbSegments
  import RingArithmetic

  /** Endpoint 0 with the memory of its control buffer. `armed`: the controller may store a packet at the current
      pointer. `inside`: no packet so far was stored past the end of the buffer. */
  datatype Receiver = Receiver(p: Pipe, buffer: seq<byte>, armed: bool, inside: bool)

  /** A packet in memory; what would lie past the end is cut off here. */
  function Stored(buffer: seq<byte>, at: nat, packet: seq<byte>): (r: seq<byte>)
    ensures |r| == |buffer|
  {
    if at + |packet| <= |buffer| then buffer[..at] + packet + buffer[at + |packet|..] else buffer
  }

  /** A packet arrives: the controller stores it, and the callback counts it and perhaps arms the next reception. */
  function Arrive(r: Receiver, packet: seq<byte>, c: Config): Receiver {
    if !r.armed then r else
    var q := DataOutStage(r.p, |packet|, c);
    Receiver(q, Stored(r.buffer, r.p.current, packet), |q.calls| > |r.p.calls|,
             r.inside && r.p.current + |packet| <= |r.buffer|)
  }

  function ArriveAll(r: Receiver, packets: seq<seq<byte>>, c: Config): Receiver
    decreases |packets|
  {
    if packets == [] then r else ArriveAll(Arrive(r, packets[0], c), packets[1..], c)
  }

  /** The host keeps to the packet size. */
  predicate FitPackets(packets: seq<seq<byte>>, c: Config) {
    forall i :: 0 <= i < |packets| ==> |packets[i]| <= c.maxPacket
  }

  /** Waiting for a packet with `got` received: the current pointer has moved by exactly what was received. */
  ghost predicate Receiving(r: Receiver, got: seq<byte>, requested: nat, c: Config) {
    && r.p.state == DataRx && r.armed
    && r.p.requested == requested <= c.maxLength == |r.buffer|
    && r.p.actual == r.p.current == |got| < requested
    && r.inside && r.buffer[..|got|] == got
  }

  /** A SETUP packet for an OUT request that fits the buffer arms the first reception at its beginning. */
  lemma SetupStartsReceiving(p: Pipe, packet: seq<byte>, buffer: seq<byte>, c: Config)
    requires IsSetupPacket(packet) && packet[0] < REQUEST_IN
    requires 0 < DataLength(packet) <= c.maxLength == |buffer|
    ensures Receiving(Receiver(SetupStage(p, packet, c), buffer, true, true), [], DataLength(packet), c)
    ensures SetupStage(p, packet, c).calls == p.calls + [Receive(0, DataLength(packet))]
    ensures SetupStage(p, packet, c).status * SETUP == p.status * SETUP
  {
  }

  /** How the receiver stands after the reference reassembly came out as `a`. */
  ghost predicate Agrees(r: Receiver, before: Pipe, a: Reception, c: Config) {
    && r.p.actual == |a.got|
    && (r.inside ==> |a.got| <= |r.buffer| && r.buffer[..|a.got|] == a.got)
    && match a.outcome
       case Waiting => r.armed && r.p.current == |a.got| && r.p.status == before.status && r.p.code == before.code
       case Complete => !r.armed && r.p.status == before.status + SETUP_OUT && r.p.code == before.code
       case Overflow => !r.armed && r.p.status == before.status + DONE && r.p.code == BufferOverflow
  }

  /** One packet, in the three ways it can come out. */
  lemma OneArrives(r: Receiver, got: seq<byte>, packet: seq<byte>, requested: nat, c: Config)
    requires Receiving(r, got, requested, c) && |packet| <= c.maxPacket
    ensures var s := Arrive(r, packet, c);
            var g := got + packet;
            && s.inside == (|g| <= |s.buffer|) && |s.buffer| == |r.buffer|
            && (|g| > requested ==> Agrees(s, r.p, Reception(g, Overflow, 0), c))
            && (|g| == requested || (|g| < requested && |packet| < c.maxPacket) ==>
                  Agrees(s, r.p, Reception(g, Complete, 0), c))
            && (|g| < requested && |packet| == c.maxPacket ==>
                  Receiving(s, g, requested, c) && s.p.status == r.p.status && s.p.code == r.p.code
                  && s.p.calls == r.p.calls + [Receive(|g|, c.maxPacket)])
  {
  }

  /** Whatever packets come, the callbacks do what the reference reassembly does: they post the request exactly
      when the stage is complete, report an overflow exactly when too much came, and otherwise wait. */
  lemma {:induction false} CallbacksReassemble(r: Receiver, got: seq<byte>, packets: seq<seq<byte>>, requested: nat, c: Config)
    requires Receiving(r, got, requested, c) && FitPackets(packets, c)
    ensures Agrees(ArriveAll(r, packets, c), r.p, Assemble(got, packets, requested, c.maxPacket), c)
    decreases |packets|
  {
    hide Arrive;
    if packets != [] {
      var s := Arrive(r, packets[0], c);
      OneArrives(r, got, packets[0], requested, c);
      if |got + packets[0]| < requested && |packets[0]| == c.maxPacket {
        CallbacksReassemble(s, got + packets[0], packets[1..], requested, c);
      } else {
        NotArmed(s, packets[1..], c);
      }
    }
  }

  /** The buffer holds exactly the packets up to where the stage ended: none is lost, repeated or out of place. */
  lemma BufferHoldsPackets(r: Receiver, packets: seq<seq<byte>>, requested: nat, c: Config)
    requires Receiving(r, [], requested, c) && FitPackets(packets, c) && ArriveAll(r, packets, c).inside
    ensures var s := ArriveAll(r, packets, c);
            var left := Assemble([], packets, requested, c.maxPacket).left;
            left <= |packets| && s.p.actual <= |s.buffer|
            && s.buffer[..s.p.actual] == Flatten(packets[..|packets| - left])
  {
    hide ArriveAll, Assemble, Flatten;
    CallbacksReassemble(r, [], packets, requested, c);
    AssembledIsPrefix([], packets, requested, c.maxPacket);
  }

  lemma {:induction false} NotArmed(r: Receiver, packets: seq<seq<byte>>, c: Config)
    requires !r.armed
    ensures ArriveAll(r, packets, c) == r
    decreases |packets|
  {
    if packets != [] { NotArmed(r, packets[1..], c); }
  }

  /** While it waits, the pointer has moved by one packet size for each packet. */
  lemma PointerCountsPackets(r: Receiver, packets: seq<seq<byte>>, requested: nat, c: Config)
    requires Receiving(r, [], requested, c) && FitPackets(packets, c) && ArriveAll(r, packets, c).armed
    ensures var s := ArriveAll(r, packets, c).p;
            s.current == s.actual == |packets| * c.maxPacket
  {
    CallbacksReassemble(r, [], packets, requested, c);
    WaitingMeansFullPackets([], packets, requested, c.maxPacket);
  }

  /** With a packet size that divides the buffer, every packet is stored inside it. */
  lemma {:induction false} StaysInside(r: Receiver, got: seq<byte>, packets: seq<seq<byte>>, requested: nat, c: Config)
    requires Receiving(r, got, requested, c) && FitPackets(packets, c)
    requires c.maxPacket > 0 && (|r.buffer| - |got|) % c.maxPacket == 0
    ensures ArriveAll(r, packets, c).inside
    decreases |packets|
  {
    hide Arrive;
    if packets != [] {
      var s := Arrive(r, packets[0], c);
      OneArrives(r, got, packets[0], requested, c);
      RoomForOne(|r.buffer| - |got|, c.maxPacket);
      if |got + packets[0]| < requested && |packets[0]| == c.maxPacket {
        StaysInside(s, got + packets[0], packets[1..], requested, c);
      } else {
        NotArmed(s, packets[1..], c);
      }
    }
  }

  lemma RoomForOne(room: nat, size: nat)
    requires size > 0 && room > 0
    ensures room % size == 0 ==> room >= size
    ensures room >= size ==> (room - size) % size == room % size
  {
    if room >= size {
      assert room == (room / size) * size + room % size;
      var q := room / size - 1;
      assert room - size == q * size + room % size;
      RingArithmetic.ModOf(room - size, q, room % size, size);
    }
  }

  /** With any other packet size, a host can send full packets until one crosses the end. */
  lemma CrossesEnd(r: Receiver, got: seq<byte>, c: Config) returns (packets: seq<seq<byte>>)
    requires Receiving(r, got, |r.buffer|, c)
    requires c.maxPacket > 0 && (|r.buffer| - |got|) % c.maxPacket != 0
    ensures FitPackets(packets, c) && !ArriveAll(r, packets, c).inside
    decreases |r.buffer| - |got|
  {
    hide Arrive;
    var full := seq(c.maxPacket, _ => 0 as byte);
    var s := Arrive(r, full, c);
    OneArrives(r, got, full, |r.buffer|, c);
    RoomForOne(|r.buffer| - |got|, c.maxPacket);
    if |r.buffer| - |got| < c.maxPacket {
      packets := [full];
      assert ArriveAll(s, packets[1..], c) == s;
    } else {
      var more := CrossesEnd(s, got + full, c);
      packets := [full] + more;
      assert packets[1..] == more;
    }
  }

  /** Receiving as a SETUP packet leaves it. */
  ghost predicate Fresh(r: Receiver, requested: nat, c: Config) { Receiving(r, [], requested, c) }

  /** No reception reaches past the control buffer exactly when the packet size divides its length. */
  lemma InsideIffPacketDivides(c: Config)
    requires c.maxPacket > 0 && c.maxLength > 0
    ensures (forall r: Receiver, requested: nat, packets: seq<seq<byte>> ::
               Fresh(r, requested, c) && FitPackets(packets, c) ==> ArriveAll(r, packets, c).inside)
            <==> c.maxLength % c.maxPacket == 0
  {
    hide ArriveAll;
    if c.maxLength % c.maxPacket == 0 {
      forall r: Receiver, requested: nat, packets: seq<seq<byte>> | Fresh(r, requested, c) && FitPackets(packets, c)
        ensures ArriveAll(r, packets, c).inside
      {
        StaysInside(r, [], packets, requested, c);
      }
    } else {
      var p := Pipe(USED, DataRx, false, [], c.maxLength, 0, 0, 0, false, Success, false, []);
      var r := Receiver(p, seq(c.maxLength, _ => 0 as byte), true, true);
      assert Fresh(r, c.maxLength, c);
      var packets := CrossesEnd(r, [], c);
    }
  }

  /** Whatever the packet size, a host that sends no more than it announced never leaves the buffer. */
  lemma {:induction false} HonestStaysInside(r: Receiver, got: seq<byte>, packets: seq<seq<byte>>, requested: nat, c: Config)
    requires Receiving(r, got, requested, c) && FitPackets(packets, c)
    requires |got| + |Flatten(packets)| <= requested
    ensures ArriveAll(r, packets, c).inside
    decreases |packets|
  {
    hide Arrive;
    if packets != [] {
      var s := Arrive(r, packets[0], c);
      OneArrives(r, got, packets[0], requested, c);
      if |got + packets[0]| < requested && |packets[0]| == c.maxPacket {
        HonestStaysInside(s, got + packets[0], packets[1..], requested, c);
      } else {
        NotArmed(s, packets[1..], c);
      }
    }
  }

  /** The whole stage: a host that sends all it announced finds its request posted with its last packet,
      and its data in the control buffer. */
  lemma ControlOutReceives(r: Receiver, data: seq<byte>, c: Config)
    requires c.maxPacket > 0 && Receiving(r, [], |data|, c)
    ensures var s := ArriveAll(r, Segments(data, c.maxPacket), c);
            && s.inside && |data| <= |s.buffer| && s.buffer[..|data|] == data && s.p.actual == |data|
            && s.p.status == r.p.status + SETUP_OUT && s.p.code == r.p.code
  {
    hide Segments, ArriveAll, Assemble, Flatten;
    var packets := Segments(data, c.maxPacket);
    SegmentsCoverData(data, c.maxPacket);
    AssembleSegments([], data, |data|, c.maxPacket);
    assert [] + data == data;
    CallbacksReassemble(r, [], packets, |data|, c);
    HonestStaysInside(r, [], packets, |data|, c);
  }
}
