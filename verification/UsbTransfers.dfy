/**
 What the transfers of the endpoints other than 0 put on the bus and report: direction and length of every start,
 the empty packets, and the length found at every completion, over whole runs.
 */
module UsbTransfers {
  import opened UsbStatus
  import opened UsbDriver
  import opened UsbEndpoint

  /** What was filled in for the next transfer, whether an empty packet is still due behind its data, and how much the
      last callback brought. */
  datatype Ledger = Ledger(filledIn: nat, zlpDue: bool, came: nat)

  /** The callback that finds data sent and an empty packet due. */
  predicate ZlpComes(l: Ledger, s: State, e: Event, transmits: bool) {
    e.Complete? && s.outstanding > 0 && transmits && l.zlpDue && l.filledIn > 0
  }

  /** A request counts if it is filled in while no transfer is under way, a callback if something was armed. */
  function Noted(l: Ledger, s: State, e: Event, transmits: bool): Ledger {
    match e
    case Prepare(requested, zlp) =>
      if s.update == NoUpdate && Transferring !in s.p.status then l.(filledIn := requested, zlpDue := zlp) else l
    case Complete(count) =>
      if s.outstanding > 0 then l.(came := count, zlpDue := l.zlpDue && !ZlpComes(l, s, e, transmits)) else l
    case _ => l
  }

  /** The call that starts a transfer: sending or receiving, from the beginning of the buffer. */
  function StartCall(transmits: bool, length: nat): HalCall {
    if transmits then Transmit(0, length) else Receive(0, length)
  }

  /** The data calls of one event: a start, or an empty packet. */
  function CallsFor(s: State, e: Event, transmits: bool, l: Ledger): seq<HalCall> {
    var t := Step(s, e, transmits);
    if |t.log| > |s.log| && t.log[|t.log| - 1] == Start then [StartCall(transmits, l.filledIn)]
    else if ZlpComes(l, s, e, transmits) then [TransmitEmpty]
    else []
  }

  /** The calls that move data: all but setting and clearing a stall. */
  function Traffic(calls: seq<HalCall>): seq<HalCall> {
    if calls == [] then [] else
      var last := calls[|calls| - 1];
      Traffic(calls[..|calls| - 1]) + if last.SetStall? || last.ClearStall? then [] else [last]
  }

  /** The traffic a run should cause: one call for each start and each empty packet due, in order. */
  function Expected(s: State, events: seq<Event>, transmits: bool, l: Ledger): seq<HalCall>
    decreases |events|
  {
    if events == [] then [] else
      CallsFor(s, events[0], transmits, l)
      + Expected(Step(s, events[0], transmits), events[1..], transmits, Noted(l, s, events[0], transmits))
  }

  lemma TrafficOneMore(calls: seq<HalCall>, call: HalCall)
    ensures Traffic(calls + [call]) == Traffic(calls) + if call.SetStall? || call.ClearStall? then [] else [call]
  {
    assert (calls + [call])[..|calls|] == calls;
  }

  /** The request is the one filled in last, as far as it is not done yet. */
  predicate Tracks(s: State, l: Ledger) { s.p.requested == l.filledIn && s.p.forceZlp == l.zlpDue }

  lemma CompleteTracks(s: State, count: nat, transmits: bool, l: Ledger)
    requires Tracks(s, l) && s.outstanding > 0
    ensures Tracks(CompleteStep(s, count, transmits), Noted(l, s, Complete(count), transmits))
  {
  }

  lemma PollTracks(s: State, busReset: bool, transmits: bool, l: Ledger)
    requires Tracks(s, l)
    ensures Tracks(PollStep(s, busReset, transmits).0, l)
  {
  }

  lemma StepTracks(s: State, e: Event, transmits: bool, l: Ledger)
    requires Tracks(s, l)
    ensures Tracks(Step(s, e, transmits), Noted(l, s, e, transmits))
  {
    hide CompleteStep, PollStep;
    match e
    case Complete(count) => if s.outstanding > 0 { CompleteTracks(s, count, transmits, l); }
    case Poll(busReset) => PollTracks(s, busReset, transmits, l);
    case _ =>
  }

  lemma PollTraffic(s: State, busReset: bool, transmits: bool, l: Ledger)
    requires Tracks(s, l)
    ensures var t := PollStep(s, busReset, transmits).0;
            Traffic(t.p.calls) == Traffic(s.p.calls)
              + if |t.log| > |s.log| && t.log[|t.log| - 1] == Start then [StartCall(transmits, l.filledIn)] else []
  {
    hide Traffic;
    TrafficOneMore(s.p.calls, StartCall(transmits, l.filledIn));
  }

  lemma CompleteTraffic(s: State, count: nat, transmits: bool, l: Ledger)
    requires Inv(s) && Tracks(s, l) && s.outstanding > 0
    ensures var t := CompleteStep(s, count, transmits);
            && |t.log| == |s.log| + 1 && t.log[|s.log|] != Start
            && Traffic(t.p.calls) == Traffic(s.p.calls)
                 + if ZlpComes(l, s, Complete(count), transmits) then [TransmitEmpty] else []
  {
    hide Traffic, PhaseOf;
    TrafficOneMore(s.p.calls, TransmitEmpty);
  }

  lemma StepTraffic(s: State, e: Event, transmits: bool, l: Ledger)
    requires Inv(s) && Tracks(s, l)
    ensures Traffic(Step(s, e, transmits).p.calls) == Traffic(s.p.calls) + CallsFor(s, e, transmits, l)
  {
    hide Traffic, PollStep, CompleteStep, Inv;
    TrafficOneMore(s.p.calls, ClearStall);
    TrafficOneMore(s.p.calls, SetStall(s.p.inward));
    if e.Poll? {
      PollTraffic(s, e.busReset, transmits, l);
    } else if e.Complete? && s.outstanding > 0 {
      CompleteTraffic(s, e.count, transmits, l);
    }
  }

  /** Over every run: the endpoint's calls are exactly one start for each transfer, with the direction of the endpoint
      and the length filled in last, and one empty packet behind the data of each that was to have one. */
  lemma {:induction false} RunTraffic(s: State, events: seq<Event>, transmits: bool, l: Ledger)
    requires Inv(s) && Tracks(s, l)
    ensures Traffic(Run(s, events, transmits).p.calls) == Traffic(s.p.calls) + Expected(s, events, transmits, l)
    decreases |events|
  {
    hide Step, Inv, Traffic, CallsFor, Noted, Tracks;
    if events != [] {
      StepKeeps(s, events[0], transmits);
      StepTracks(s, events[0], transmits, l);
      StepTraffic(s, events[0], transmits, l);
      RunTraffic(Step(s, events[0], transmits), events[1..], transmits, Noted(l, s, events[0], transmits));
    }
  }

  /** The first poll of an endpoint that is not stalled. */
  lemma FirstPollStarts(s: State, transmits: bool)
    requires Created(s)
    ensures PollStep(s, false, transmits).0.p.calls
         == s.p.calls + [if transmits then Transmit(0, s.p.requested) else Receive(0, s.p.requested)]
  {
    StatusTests(s.p.status);
  }

  /** Calls in the direction of the endpoint. */
  predicate OneWay(calls: seq<HalCall>, transmits: bool) {
    forall i :: 0 <= i < |calls| ==>
      (if transmits then !calls[i].Receive? && !calls[i].ReceiveEmpty?
       else !calls[i].Transmit? && !calls[i].TransmitEmpty?)
  }

  lemma PollOneWay(s: State, busReset: bool, transmits: bool)
    requires OneWay(s.p.calls, transmits)
    ensures OneWay(PollStep(s, busReset, transmits).0.p.calls, transmits)
  {
  }

  lemma CompleteOneWay(s: State, count: nat, transmits: bool)
    requires OneWay(s.p.calls, transmits) && s.outstanding > 0
    ensures OneWay(CompleteStep(s, count, transmits).p.calls, transmits)
  {
  }

  lemma StepOneWay(s: State, e: Event, transmits: bool)
    requires OneWay(s.p.calls, transmits)
    ensures OneWay(Step(s, e, transmits).p.calls, transmits)
  {
    hide PollStep, CompleteStep;
    match e
    case Poll(busReset) => PollOneWay(s, busReset, transmits);
    case Complete(count) => if s.outstanding > 0 { CompleteOneWay(s, count, transmits); }
    case _ =>
  }

  /** An endpoint that sends never receives, and one that receives never sends, not even an empty packet. */
  lemma {:induction false} RunOneWay(s: State, events: seq<Event>, transmits: bool)
    requires OneWay(s.p.calls, transmits)
    ensures OneWay(Run(s, events, transmits).p.calls, transmits)
    decreases |events|
  {
    hide Step, OneWay;
    if events != [] {
      StepOneWay(s, events[0], transmits);
      RunOneWay(Step(s, events[0], transmits), events[1..], transmits);
    }
  }

  // ----- what is reported

  /** The lengths the task finds in its request when a completion is reported. */
  function Found(s: State, events: seq<Event>, transmits: bool): seq<nat>
    decreases |events|
  {
    if events == [] then [] else
      var t := Step(s, events[0], transmits);
      (if Reports(s, t) then [t.p.actual] else []) + Found(t, events[1..], transmits)
  }

  /** The lengths that went over the bus for them. */
  function Moved(s: State, events: seq<Event>, transmits: bool, l: Ledger): seq<nat>
    decreases |events|
  {
    if events == [] then [] else
      var t := Step(s, events[0], transmits);
      (if Reports(s, t) then [if transmits then l.filledIn else l.came] else [])
      + Moved(t, events[1..], transmits, Noted(l, s, events[0], transmits))
  }

  predicate Reports(s: State, t: State) { |t.log| > |s.log| && t.log[|t.log| - 1] == Report }

  /** A finished transfer has its length in the request. */
  predicate LengthKept(s: State, transmits: bool, l: Ledger) {
    && Tracks(s, l)
    && (Done in s.p.status ==> s.p.completed && s.p.actual == if transmits then l.filledIn else l.came)
  }

  lemma PollKeepsLength(s: State, busReset: bool, transmits: bool, l: Ledger)
    requires LengthKept(s, transmits, l)
    ensures LengthKept(PollStep(s, busReset, transmits).0, transmits, l)
    ensures Reports(s, PollStep(s, busReset, transmits).0) ==> Done in s.p.status
    ensures PollStep(s, busReset, transmits).0.p.actual == s.p.actual
    ensures PollStep(s, busReset, transmits).0.p.completed == s.p.completed
  {
    StatusTests(s.p.status);
  }

  lemma CompleteKeepsLength(s: State, count: nat, transmits: bool, l: Ledger)
    requires LengthKept(s, transmits, l) && s.outstanding > 0
    ensures LengthKept(CompleteStep(s, count, transmits), transmits, Noted(l, s, Complete(count), transmits))
    ensures !Reports(s, CompleteStep(s, count, transmits))
  {
  }

  lemma StepKeepsLength(s: State, e: Event, transmits: bool, l: Ledger)
    requires Inv(s) && LengthKept(s, transmits, l)
    ensures LengthKept(Step(s, e, transmits), transmits, Noted(l, s, e, transmits))
    ensures Reports(s, Step(s, e, transmits)) ==>
              Step(s, e, transmits).p.completed
              && Step(s, e, transmits).p.actual == if transmits then l.filledIn else l.came
  {
    hide PhaseOf, PollStep, CompleteStep;
    if e.Poll? {
      PollKeepsLength(s, e.busReset, transmits, l);
    } else if e.Complete? && s.outstanding > 0 {
      CompleteKeepsLength(s, e.count, transmits, l);
    }
  }

  /** Over every run: at a reported completion a sending endpoint finds the requested length, and a receiving one the
      count of the callback that completed the transfer. */
  lemma {:induction false} ReportedLengths(s: State, events: seq<Event>, transmits: bool, l: Ledger)
    requires Inv(s) && LengthKept(s, transmits, l)
    ensures Found(s, events, transmits) == Moved(s, events, transmits, l)
    decreases |events|
  {
    hide Step, Inv, Noted, LengthKept, Reports;
    if events != [] {
      StepKeeps(s, events[0], transmits);
      StepKeepsLength(s, events[0], transmits, l);
      ReportedLengths(Step(s, events[0], transmits), events[1..], transmits, Noted(l, s, events[0], transmits));
    }
  }

  lemma CreatedKeepsLength(s: State, transmits: bool)
    requires Created(s)
    ensures Inv(s) && LengthKept(s, transmits, Ledger(s.p.requested, s.p.forceZlp, 0))
  {
  }
}
