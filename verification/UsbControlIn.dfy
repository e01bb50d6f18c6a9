/** Control-IN data stages: how the callbacks of endpoint 0 cut an armed transfer into packets. */
module UsbControlIn {
  import opened Bytes
  import opened UsbStatus
  import opened UsbDriver
  import opened UsbSegments

  /** Completed packets in a row. Between two callbacks, tasks may do anything to the status word:
      `words` is what they leave there before each callback. */
  function DataInRun(p: Pipe, words: seq<Word>, c: Config): Pipe
    decreases |words|
  {
    if words == [] then p else
      var n := |words| - 1;
      DataInStage(DataInRun(p, words[..n], c).(status := words[n]), c)
  }

  /** The status word when no callback touches it. */
  function LastWord(p: Pipe, words: seq<Word>): Word {
    if words == [] then p.status else words[|words| - 1]
  }

  /** What a call puts on the bus: on endpoint 0 the controller sends at most one packet. */
  function SentBy(call: HalCall, data: seq<byte>, c: Config): seq<seq<byte>> {
    match call
    case Transmit(from, len) =>
      var n := if len < c.maxPacket then len else c.maxPacket;
      if from + n <= |data| then [data[from..from + n]] else []
    case TransmitEmpty => [[]]
    case _ => []
  }

  function Sent(calls: seq<HalCall>, data: seq<byte>, c: Config): seq<seq<byte>>
    decreases |calls|
  {
    if calls == [] then [] else
      Sent(calls[..|calls| - 1], data, c) + SentBy(calls[|calls| - 1], data, c)
  }

  /** No transmission reads outside the data. */
  predicate WithinData(calls: seq<HalCall>, data: seq<byte>) {
    forall i :: 0 <= i < |calls| && calls[i].Transmit? ==> calls[i].from + calls[i].len <= |data|
  }

  /** How often the status stage has been armed. */
  function StatusArmed(calls: seq<HalCall>): nat
    decreases |calls|
  {
    if calls == [] then 0 else
      StatusArmed(calls[..|calls| - 1]) + if calls[|calls| - 1] == ReceiveEmpty then 1 else 0
  }

  /** A transfer just armed by the device stack. */
  ghost predicate Armed(p: Pipe, data: seq<byte>) {
    && p.state == DataTx && p.requested == p.inLength == |data| && p.current == 0
    && p.calls == [Transmit(0, |data|)]
  }

  /** Lengths and pointer agree with what is left. */
  ghost predicate InStep(p: Pipe, data: seq<byte>, rest: seq<byte>, c: Config) {
    && p.state == DataTx && p.requested == |data|
    && |rest| <= |data| && rest == data[|data| - |rest|..]
    && (if rest == [] then p.inLength <= c.maxPacket
        else p.inLength == |rest| + c.maxPacket && p.current + c.maxPacket + |rest| == |data|)
  }

  /** `rest` is still to be sent after the packet now on the bus: the remaining length counts that packet too. */
  ghost predicate Sending(p: Pipe, data: seq<byte>, rest: seq<byte>, c: Config)
    requires c.maxPacket > 0
  {
    && InStep(p, data, rest, c)
    && Sent(p.calls, data, c) + LaterSegments(rest, c.maxPacket) == Segments(data, c.maxPacket)
    && WithinData(p.calls, data)
  }

  lemma SentOneMore(calls: seq<HalCall>, call: HalCall, data: seq<byte>, c: Config)
    ensures Sent(calls + [call], data, c) == Sent(calls, data, c) + SentBy(call, data, c)
    ensures StatusArmed(calls + [call]) == StatusArmed(calls) + if call == ReceiveEmpty then 1 else 0
  {
  }

  lemma ArmedIsSending(p: Pipe, data: seq<byte>, c: Config) returns (rest: seq<byte>)
    requires c.maxPacket > 0 && Armed(p, data)
    ensures Sending(p, data, rest, c)
    ensures |Sent(p.calls, data, c)| == 1 && StatusArmed(p.calls) == 0
  {
    SentOneMore([], p.calls[0], data, c);
    assert [] + [p.calls[0]] == p.calls;
    SegmentsHead(data, c.maxPacket);
    rest := data[FirstLength(data, c.maxPacket)..];
    assert SentBy(p.calls[0], data, c) == [data[..FirstLength(data, c.maxPacket)]];
    assert Sent(p.calls, data, c) == [data[..FirstLength(data, c.maxPacket)]];
  }

  /** One callback with data left: the lengths and the pointer, and the two calls. */
  lemma CallbackMovesOn(p: Pipe, data: seq<byte>, rest: seq<byte>, c: Config)
    requires c.maxPacket > 0 && InStep(p, data, rest, c) && rest != []
    ensures var q, n := DataInStage(p, c), FirstLength(rest, c.maxPacket);
            && InStep(q, data, rest[n..], c) && n > 0 && q.inLength < p.inLength
            && q.forceZlp == p.forceZlp && q.status == p.status
            && p.current + c.maxPacket + n <= |data|
            && q.calls == p.calls + [ReceiveEmpty] + [Transmit(p.current + c.maxPacket, n)]
            && data[p.current + c.maxPacket..p.current + c.maxPacket + n] == rest[..n]
  {
    var n := FirstLength(rest, c.maxPacket);
    var from := |data| - |rest|;
    SliceOfRest(data, from, n);
    assert from == p.current + c.maxPacket && rest == data[from..];
    assert p.calls + [ReceiveEmpty] + [Transmit(p.current + c.maxPacket, n)] == DataInStage(p, c).calls;
  }

  lemma SliceOfRest(data: seq<byte>, from: nat, n: nat)
    requires from + n <= |data|
    ensures data[from..][n..] == data[from + n..] && data[from..][..n] == data[from..from + n]
  {
  }

  /** What the two calls put on the bus. */
  lemma CallsSendSlice(calls: seq<HalCall>, from: nat, n: nat, data: seq<byte>, c: Config)
    requires n <= c.maxPacket && from + n <= |data| && WithinData(calls, data)
    ensures var more := calls + [ReceiveEmpty] + [Transmit(from, n)];
            && Sent(more, data, c) == Sent(calls, data, c) + [data[from..from + n]]
            && StatusArmed(more) == StatusArmed(calls) + 1
            && WithinData(more, data)
  {
    hide Sent, SentBy, StatusArmed, WithinData;
    SliceSent(from, n, data, c);
    SentOneMore(calls, ReceiveEmpty, data, c);
    SentOneMore(calls + [ReceiveEmpty], Transmit(from, n), data, c);
    NothingRead(calls, ReceiveEmpty, data);
    ReadsInside(calls + [ReceiveEmpty], Transmit(from, n), data);
    assert Sent(calls, data, c) + [] == Sent(calls, data, c);
  }

  lemma SliceSent(from: nat, n: nat, data: seq<byte>, c: Config)
    requires n <= c.maxPacket && from + n <= |data|
    ensures SentBy(Transmit(from, n), data, c) == [data[from..from + n]]
    ensures SentBy(ReceiveEmpty, data, c) == []
  {
  }

  lemma ReadsInside(calls: seq<HalCall>, call: HalCall, data: seq<byte>)
    requires WithinData(calls, data) && call.Transmit? && call.from + call.len <= |data|
    ensures WithinData(calls + [call], data)
  {
  }

  /** One callback with data left sends the next slice. */
  lemma CallbackSendsSlice(p: Pipe, data: seq<byte>, rest: seq<byte>, c: Config) returns (rest': seq<byte>)
    requires c.maxPacket > 0 && Sending(p, data, rest, c) && rest != []
    ensures var q := DataInStage(p, c);
            && Sending(q, data, rest', c)
            && |rest'| < |rest| && q.inLength < p.inLength
            && q.forceZlp == p.forceZlp && q.status == p.status
            && |Sent(q.calls, data, c)| == |Sent(p.calls, data, c)| + 1
            && StatusArmed(q.calls) == StatusArmed(p.calls) + 1
  {
    hide Sent, Segments, StatusArmed, WithinData, InStep, DataInStage;
    var n := FirstLength(rest, c.maxPacket);
    rest' := rest[n..];
    CallbackMovesOn(p, data, rest, c);
    CallsSendSlice(p.calls, p.current + c.maxPacket, n, data, c);
    SegmentsHead(rest, c.maxPacket);
  }

  /** After fewer callbacks than packets, one more packet than callbacks has been sent. */
  lemma {:induction false} PartlySent(p: Pipe, data: seq<byte>, c: Config, words: seq<Word>) returns (rest: seq<byte>)
    requires c.maxPacket > 0 && Armed(p, data) && |words| < |Segments(data, c.maxPacket)|
    ensures Sending(DataInRun(p, words, c), data, rest, c)
    ensures |Sent(DataInRun(p, words, c).calls, data, c)| == |words| + 1
    ensures StatusArmed(DataInRun(p, words, c).calls) == |words|
    ensures DataInRun(p, words, c).forceZlp == p.forceZlp && DataInRun(p, words, c).status == LastWord(p, words)
    decreases |words|
  {
    hide Sent, Segments, StatusArmed, WithinData, DataInStage;
    if words == [] {
      rest := ArmedIsSending(p, data, c);
    } else {
      var n := |words| - 1;
      rest := PartlySent(p, data, c, words[..n]);
      rest := CallbackSendsSlice(DataInRun(p, words[..n], c).(status := words[n]), data, rest, c);
    }
  }

  /** The callback after the last packet sends the empty packet if one is wanted, and otherwise completes. */
  lemma CallbackEnds(p: Pipe, data: seq<byte>, c: Config)
    requires p.state == DataTx && p.inLength <= c.maxPacket && p.requested == |data| && WithinData(p.calls, data)
    ensures var q := DataInStage(p, c);
            && StatusArmed(q.calls) == StatusArmed(p.calls) + 1 && WithinData(q.calls, data)
            && q.inLength == p.inLength && q.requested == p.requested
            && Sent(q.calls, data, c) == Sent(p.calls, data, c) + (if p.forceZlp then [[]] else [])
            && (p.forceZlp ==> q.state == DataTx && !q.forceZlp && q.status == p.status)
            && (!p.forceZlp ==> IsDone(q) && q.status == p.status + DONE)
  {
    hide WithinData;
    SentOneMore(p.calls, ReceiveEmpty, data, c);
    SentOneMore(p.calls + [ReceiveEmpty], TransmitEmpty, data, c);
    assert WithinData(p.calls + [ReceiveEmpty], data) && WithinData(p.calls + [ReceiveEmpty] + [TransmitEmpty], data) by {
      NothingRead(p.calls, ReceiveEmpty, data);
      NothingRead(p.calls + [ReceiveEmpty], TransmitEmpty, data);
    }
  }

  lemma NothingRead(calls: seq<HalCall>, call: HalCall, data: seq<byte>)
    requires WithinData(calls, data) && !call.Transmit?
    ensures WithinData(calls + [call], data)
  {
  }

  /** The transfer has been reported complete, with all of it counted. */
  predicate IsDone(p: Pipe) {
    p.state == StatusRx && p.completed && p.code == Success && p.actual == p.requested
  }

  /** All callbacks that do anything: one for each packet. */
  function Callbacks(data: seq<byte>, zlp: bool, c: Config): nat
    requires c.maxPacket > 0
  {
    |Segments(data, c.maxPacket)| + if zlp then 1 else 0
  }

  /** While callbacks are still to come, exactly the first packets have been sent, in order and nothing else,
      and the transfer is not reported done. */
  lemma SentSoFar(p: Pipe, data: seq<byte>, c: Config, words: seq<Word>)
    requires c.maxPacket > 0 && Armed(p, data) && |words| < Callbacks(data, p.forceZlp, c)
    ensures var q := DataInRun(p, words, c);
            && Sent(q.calls, data, c) == (Segments(data, c.maxPacket) + [[]])[..|words| + 1]
            && q.state == DataTx && q.status == LastWord(p, words)
            && WithinData(q.calls, data) && StatusArmed(q.calls) == |words|
  {
    hide Sent, Segments, StatusArmed, WithinData, DataInStage;
    var all, n := Segments(data, c.maxPacket), |words|;
    if n < |all| {
      var rest := PartlySent(p, data, c, words);
      var sent := Sent(DataInRun(p, words, c).calls, data, c);
      assert sent == all[..n + 1];
      assert (all + [[]])[..n + 1] == all[..n + 1];
    } else {
      AllSent(p, data, c, words[..n - 1]);
      CallbackEnds(DataInRun(p, words[..n - 1], c).(status := words[n - 1]), data, c);
      assert (all + [[]])[..n + 1] == all + [[]];
    }
  }

  lemma AllSent(p: Pipe, data: seq<byte>, c: Config, words: seq<Word>)
    requires c.maxPacket > 0 && Armed(p, data) && |words| == |Segments(data, c.maxPacket)| - 1
    ensures var q := DataInRun(p, words, c);
            && q.state == DataTx && q.inLength <= c.maxPacket && q.requested == |data|
            && q.forceZlp == p.forceZlp && q.status == LastWord(p, words) && WithinData(q.calls, data)
            && Sent(q.calls, data, c) == Segments(data, c.maxPacket)
            && StatusArmed(q.calls) == |words|
  {
    hide Sent, StatusArmed, WithinData, DataInRun;
    var rest := PartlySent(p, data, c, words);
  }

  /** From then on the whole transfer has been sent, with one empty packet at its end if one was wanted,
      the transfer has been reported complete, and further callbacks change nothing. */
  lemma {:induction false} ControlInDelivers(p: Pipe, data: seq<byte>, c: Config, words: seq<Word>)
    requires c.maxPacket > 0 && Armed(p, data) && |words| >= Callbacks(data, p.forceZlp, c)
    ensures var q := DataInRun(p, words, c);
            && Sent(q.calls, data, c) == Segments(data, c.maxPacket) + (if p.forceZlp then [[]] else [])
            && IsDone(q) && q.requested == |data|
            && q.status == LastWord(p, words) + (if |words| == Callbacks(data, p.forceZlp, c) then DONE else {})
            && WithinData(q.calls, data) && StatusArmed(q.calls) == Callbacks(data, p.forceZlp, c)
    decreases |words|
  {
    hide Sent, Segments, StatusArmed, WithinData;
    var k, n := |Segments(data, c.maxPacket)|, |words|;
    if n > Callbacks(data, p.forceZlp, c) {
      ControlInDelivers(p, data, c, words[..n - 1]);
    } else {
      hide DataInStage;
      AllSent(p, data, c, words[..k - 1]);
      assert words[..k][..k - 1] == words[..k - 1];
      CallbackEnds(DataInRun(p, words[..k - 1], c).(status := words[k - 1]), data, c);
      if p.forceZlp {
        CallbackEnds(DataInRun(p, words[..k], c).(status := words[k]), data, c);
      } else {
        assert words[..k] == words;
      }
    }
  }

  /** The bytes on the bus are exactly the requested bytes. */
  lemma BytesOnTheBus(p: Pipe, data: seq<byte>, c: Config, words: seq<Word>)
    requires c.maxPacket > 0 && Armed(p, data) && |words| >= Callbacks(data, p.forceZlp, c)
    ensures Flatten(Sent(DataInRun(p, words, c).calls, data, c)) == data
  {
    hide Sent, Segments, DataInRun, WithinData, StatusArmed;
    ControlInDelivers(p, data, c, words);
    SegmentsCoverData(data, c.maxPacket);
    FlattenWithEmpty(Segments(data, c.maxPacket));
    assert Segments(data, c.maxPacket) + [] == Segments(data, c.maxPacket);
  }

  lemma {:induction false} FlattenWithEmpty(parts: seq<seq<byte>>)
    ensures Flatten(parts + [[]]) == Flatten(parts)
    decreases |parts|
  {
    if parts == [] {
      assert Flatten([[]]) == [] + Flatten([]);
    } else {
      assert (parts + [[]])[1..] == parts[1..] + [[]];
      FlattenWithEmpty(parts[1..]);
    }
  }
}
