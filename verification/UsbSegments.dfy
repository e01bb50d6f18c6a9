/** A data stage as the bus sees it: the packets a transfer is cut into, and what a receiver makes of packets. */
module UsbSegments {
  import opened Bytes

  /** The packets of a transfer: full ones, and then what is left; an empty transfer is one empty packet. */
  function Segments(data: seq<byte>, maxPacket: nat): (r: seq<seq<byte>>)
    requires maxPacket > 0
    ensures r != []
    decreases |data|
  {
    if |data| <= maxPacket then [data] else [data[..maxPacket]] + Segments(data[maxPacket..], maxPacket)
  }

  /** The length of the first packet. */
  function FirstLength(data: seq<byte>, maxPacket: nat): nat {
    if |data| < maxPacket then |data| else maxPacket
  }

  /** The packets that follow. */
  function LaterSegments(data: seq<byte>, maxPacket: nat): seq<seq<byte>>
    requires maxPacket > 0
  {
    if data == [] then [] else Segments(data, maxPacket)
  }

  lemma SegmentsHead(data: seq<byte>, maxPacket: nat)
    requires maxPacket > 0
    ensures var n := FirstLength(data, maxPacket);
            Segments(data, maxPacket) == [data[..n]] + LaterSegments(data[n..], maxPacket)
  {
    if |data| <= maxPacket {
      assert data[..|data|] == data && data[|data|..] == [];
      assert [data] + [] == [data];
    }
  }

  /** They are consecutive slices: together they are the data, and only the last one may be short. */
  lemma {:induction false} SegmentsCoverData(data: seq<byte>, maxPacket: nat)
    requires maxPacket > 0
    ensures var r := Segments(data, maxPacket);
            && Flatten(r) == data
            && |r[|r| - 1]| <= maxPacket
            && (data != [] ==> r[|r| - 1] != [])
            && forall i :: 0 <= i < |r| - 1 ==> |r[i]| == maxPacket
    decreases |data|
  {
    if |data| <= maxPacket {
      assert Flatten([data]) == data + Flatten([]);
    } else {
      SegmentsCoverData(data[maxPacket..], maxPacket);
      assert data == data[..maxPacket] + data[maxPacket..];
    }
  }

  /** How a control-OUT data stage of `requested` bytes stands. */
  datatype Outcome = Waiting | Complete | Overflow

  /** The receiver of section 8.5.3 of the USB 2.0 specification: the stage ends with the requested length
      or with a short packet. `left` counts the packets not looked at because the stage had ended. */
  datatype Reception = Reception(got: seq<byte>, outcome: Outcome, left: nat)

  function Assemble(got: seq<byte>, packets: seq<seq<byte>>, requested: nat, maxPacket: nat): Reception
    decreases |packets|
  {
    if packets == [] then Reception(got, Waiting, 0) else
    var g := got + packets[0];
    if |g| > requested then Reception(g, Overflow, |packets| - 1)
    else if |g| == requested || |packets[0]| < maxPacket then Reception(g, Complete, |packets| - 1)
    else Assemble(g, packets[1..], requested, maxPacket)
  }

  /** What is assembled is the packets up to where the stage ended. */
  lemma {:induction false} AssembledIsPrefix(got: seq<byte>, packets: seq<seq<byte>>, requested: nat, maxPacket: nat)
    ensures var r := Assemble(got, packets, requested, maxPacket);
            r.left <= |packets| && r.got == got + Flatten(packets[..|packets| - r.left])
    decreases |packets|
  {
    if packets == [] {
      assert packets[..0] == [];
    } else {
      var g := got + packets[0];
      if |g| > requested || |g| == requested || |packets[0]| < maxPacket {
        assert packets[..1] == [packets[0]] && Flatten([packets[0]]) == packets[0] + Flatten([]);
      } else {
        AssembledIsPrefix(g, packets[1..], requested, maxPacket);
        var n := |packets| - Assemble(got, packets, requested, maxPacket).left;
        assert packets[..n] == [packets[0]] + packets[1..][..n - 1];
      }
    }
  }

  /** A stage that is still waiting has had full packets only. */
  lemma {:induction false} WaitingMeansFullPackets(got: seq<byte>, packets: seq<seq<byte>>, requested: nat, maxPacket: nat)
    requires forall i :: 0 <= i < |packets| ==> |packets[i]| <= maxPacket
    requires Assemble(got, packets, requested, maxPacket).outcome == Waiting
    ensures |Assemble(got, packets, requested, maxPacket).got| == |got| + |packets| * maxPacket
    decreases |packets|
  {
    if packets != [] {
      WaitingMeansFullPackets(got + packets[0], packets[1..], requested, maxPacket);
      assert |packets| * maxPacket == maxPacket + (|packets| - 1) * maxPacket;
    }
  }

  /** Segmentation and reassembly are inverse: a sender with all the requested bytes completes the stage
      with its last packet, and the receiver has the data. */
  lemma {:induction false} AssembleSegments(got: seq<byte>, data: seq<byte>, requested: nat, maxPacket: nat)
    requires maxPacket > 0 && |got| + |data| == requested
    ensures Assemble(got, Segments(data, maxPacket), requested, maxPacket) == Reception(got + data, Complete, 0)
    decreases |data|
  {
    var s := Segments(data, maxPacket);
    if |data| <= maxPacket {
      assert s[1..] == [];
    } else {
      assert s[1..] == Segments(data[maxPacket..], maxPacket);
      AssembleSegments(got + data[..maxPacket], data[maxPacket..], requested, maxPacket);
      assert got + data[..maxPacket] + data[maxPacket..] == got + data;
    }
  }

  /** A sender with fewer bytes than requested is understood exactly when its last packet is short;
      otherwise the receiver is still waiting, and a zero-length packet ends the stage. */
  lemma {:induction false} AssembleShortTransfer(got: seq<byte>, data: seq<byte>, requested: nat, maxPacket: nat)
    requires maxPacket > 0 && |got| + |data| < requested
    ensures var s := Segments(data, maxPacket);
            var r := Assemble(got, s, requested, maxPacket);
            && r.got == got + data && r.left == 0
            && (r.outcome == Complete <==> |s[|s| - 1]| < maxPacket)
            && (r.outcome != Complete ==>
                  r.outcome == Waiting
                  && Assemble(got, s + [[]], requested, maxPacket) == Reception(got + data, Complete, 0))
    decreases |data|
  {
    var s := Segments(data, maxPacket);
    if |data| <= maxPacket {
      assert s[1..] == [] && (s + [[]])[1..] == [[]];
      assert got + data + [] == got + data;
    } else {
      assert s[1..] == Segments(data[maxPacket..], maxPacket) && (s + [[]])[1..] == s[1..] + [[]];
      AssembleShortTransfer(got + data[..maxPacket], data[maxPacket..], requested, maxPacket);
      assert got + data[..maxPacket] + data[maxPacket..] == got + data;
    }
  }
}
