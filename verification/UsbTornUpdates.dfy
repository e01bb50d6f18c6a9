/**
 What the two updates of the status word outside a critical section overwrite on endpoint 0: the stall of an endpoint
 and the last statement of a dispatch. Runs that reach each case start from the quiet driver.
 */
module UsbTornUpdates {
  import opened Bytes
  import opened UsbStatus
  import opened UsbDriver
  import opened UsbSetupDispatch
  import opened UsbSetupRequests

  /** What can come between the load and the store. */
  predicate Interrupts(events: seq<Event>) {
    forall i :: 0 <= i < |events| ==>
      events[i].PacketSent? || events[i].PacketArrives? || (events[i].SetupArrives? && IsSetupPacket(events[i].packet))
  }

  /** A callback that sets DONE: the last packet of a read has been sent, or a write has sent too much. */
  predicate Completes(s: System, e: Event, c: Config) {
    || (e.PacketSent? && s.p.state == DataTx && s.p.inLength <= c.maxPacket && !s.p.forceZlp)
    || (e.PacketArrives? && s.p.state == DataRx && s.p.actual + e.count > s.p.requested)
  }

  ghost predicate CompletedAt(s: System, events: seq<Event>, c: Config, k: int) {
    0 <= k < |events| && Completes(Run(s, events[..k], c), events[k], c) && NoSetup(events[k + 1..])
  }

  /** The latest such callback came after the latest SETUP packet. */
  ghost predicate CompletedLast(s: System, events: seq<Event>, c: Config) {
    exists k :: CompletedAt(s, events, c, k)
  }

  lemma InterruptBits(s: System, e: Event, c: Config)
    requires e.PacketSent? || e.PacketArrives? || (e.SetupArrives? && IsSetupPacket(e.packet))
    ensures var t := Step(s, e, c);
            && t.update == s.update
            && (Done in t.p.status <==> !e.SetupArrives? && (Done in s.p.status || Completes(s, e, c)))
            && (Transferring in t.p.status <==> !e.SetupArrives? && Transferring in s.p.status)
            && (e.SetupArrives? ==> t.p.setup == e.packet && (Stalled in t.p.status <==> Oversized(e.packet, c)))
            && (!e.SetupArrives? ==> t.p.setup == s.p.setup && (Stalled in t.p.status <==> Stalled in s.p.status))
  {
    match e
    case SetupArrives(packet) => SetupClears(s.p, packet, c);
    case PacketSent =>
    case PacketArrives(count) =>
  }

  lemma SetupClears(p: Pipe, packet: seq<byte>, c: Config)
    requires IsSetupPacket(packet)
    ensures var q := SetupStage(p, packet, c);
            && Done !in q.status && Transferring !in q.status && q.setup == packet
            && (Stalled in q.status <==> Oversized(packet, c))
  {
    SetupPosts(p, packet, c);
  }

  lemma RunLast(s: System, events: seq<Event>, c: Config)
    requires events != []
    ensures Run(s, events, c) == Step(Run(s, events[..|events| - 1], c), events[|events| - 1], c)
  {
    hide Step;
    var n := |events| - 1;
    RunSplit(s, events[..n], [events[n]], c);
    assert events[..n] + [events[n]] == events;
    RunCons(Run(s, events[..n], c), events[n], [], c);
    RunNothing(Step(Run(s, events[..n], c), events[n], c), c);
    assert [events[n]] + [] == [events[n]];
  }

  lemma CompletedAtFront(s: System, events: seq<Event>, c: Config, k: nat)
    requires k < |events| - 1
    ensures CompletedAt(s, events, c, k) <==>
              CompletedAt(s, events[..|events| - 1], c, k) && !events[|events| - 1].SetupArrives?
  {
    hide Run, Completes;
    var n := |events| - 1;
    var front := events[..n];
    assert front[..k] == events[..k] && front[k] == events[k];
    assert events[k + 1..] == front[k + 1..] + [events[n]];
    NoSetupMore(front[k + 1..], events[n]);
  }

  lemma NoSetupMore(events: seq<Event>, e: Event)
    ensures NoSetup(events + [e]) <==> NoSetup(events) && !e.SetupArrives?
  {
    assert (events + [e])[|events|] == e;
    assert forall i :: 0 <= i < |events| ==> (events + [e])[i] == events[i];
  }

  lemma CompletedLastMore(s: System, events: seq<Event>, c: Config)
    requires events != []
    ensures var n := |events| - 1;
            CompletedLast(s, events, c) <==>
              Completes(Run(s, events[..n], c), events[n], c)
              || (!events[n].SetupArrives? && CompletedLast(s, events[..n], c))
  {
    hide CompletedAt;
    var n := |events| - 1;
    AtTheEnd(s, events, c);
    if CompletedLast(s, events, c) {
      var k :| CompletedAt(s, events, c, k);
      InRange(s, events, c, k);
      if k < n { CompletedAtFront(s, events, c, k); }
    }
    if !events[n].SetupArrives? && CompletedLast(s, events[..n], c) {
      var k :| CompletedAt(s, events[..n], c, k);
      InRange(s, events[..n], c, k);
      CompletedAtFront(s, events, c, k);
    }
  }

  lemma InRange(s: System, events: seq<Event>, c: Config, k: int)
    requires CompletedAt(s, events, c, k)
    ensures 0 <= k < |events|
  {
  }

  lemma AtTheEnd(s: System, events: seq<Event>, c: Config)
    requires events != []
    ensures var n := |events| - 1;
            CompletedAt(s, events, c, n) <==> Completes(Run(s, events[..n], c), events[n], c)
  {
    hide Run, Completes;
    assert events[|events|..] == [];
  }

  /** The flags after any interrupts. */
  lemma {:induction false} FlagsAfter(s: System, events: seq<Event>, c: Config)
    requires Interrupts(events)
    ensures var t := Run(s, events, c);
            && t.update == s.update
            && (Done in t.p.status <==> CompletedLast(s, events, c) || (NoSetup(events) && Done in s.p.status))
            && (Transferring in t.p.status <==> NoSetup(events) && Transferring in s.p.status)
            && (NoSetup(events) ==> (Stalled in t.p.status <==> Stalled in s.p.status))
            && (!NoSetup(events) ==> IsSetupPacket(t.p.setup) && (Stalled in t.p.status <==> Oversized(t.p.setup, c)))
    decreases |events|
  {
    hide Run, Step;
    if events == [] {
      RunNothing(s, c);
    } else {
      var n := |events| - 1;
      var front := events[..n];
      FlagsAfter(s, front, c);
      RunLast(s, events, c);
      CompletedLastMore(s, events, c);
      assert events[n].PacketSent? || events[n].PacketArrives? || events[n].SetupArrives?;
      InterruptBits(Run(s, front, c), events[n], c);
      assert NoSetup(events) <==> NoSetup(front) && !events[n].SetupArrives? by {
        assert forall i :: 0 <= i < n ==> front[i] == events[i];
      }
    }
  }

  /** The step that loads the status word, of a stall or of the last statement of a dispatch. */
  predicate Loads(s: System, e: Event) {
    s.update == NoUpdate
    && (e == Stall || (e.Proceed? && s.active != [] && s.active[|s.active| - 1].stage == Leaving))
  }

  lemma LoadKeeps(s: System, e: Event, c: Config)
    requires Loads(s, e)
    ensures var t := Step(s, e, c);
            && t.p == s.p && t.update != NoUpdate && t.update.loaded == s.p.status && (t.update.Stalling? <==> e == Stall)
  {
  }

  lemma StoreWrites(t: System)
    requires t.update != NoUpdate
    ensures var u := StoreStep(t);
            && (Done in u.p.status <==> Done in t.update.loaded)
            && (Transferring in u.p.status <==> Transferring in t.update.loaded)
            && (Stalled in u.p.status <==> t.update.Stalling? || Stalled in t.update.loaded)
  {
  }

  /** Exactly what an update overwrites, whatever interrupts come between its load and its store. A completion is lost
      when it came after the latest SETUP packet and none had been recorded at the load. Flags that a SETUP packet has
      cleared come back: TRANSFER if it was set, DONE if nothing has completed since. Ending a dispatch also loses the
      stall of an oversized write, and brings back the stall that another packet has cleared. */
  lemma UpdateOverwritesIff(s: System, e: Event, events: seq<Event>, c: Config)
    requires Loads(s, e) && Interrupts(events)
    ensures var a := Step(s, e, c);
            var t := Run(a, events, c);
            var u := Step(t, Store, c);
            && (Done in t.p.status && Done !in u.p.status <==> CompletedLast(a, events, c) && Done !in s.p.status)
            && (Done in u.p.status && Done !in t.p.status <==>
                  Done in s.p.status && !NoSetup(events) && !CompletedLast(a, events, c))
            && !(Transferring in t.p.status && Transferring !in u.p.status)
            && (Transferring in u.p.status && Transferring !in t.p.status <==>
                  Transferring in s.p.status && !NoSetup(events))
    ensures e.Proceed? ==>
              var t := Run(Step(s, e, c), events, c);
              var u := Step(t, Store, c);
              && (Stalled in t.p.status && Stalled !in u.p.status <==>
                    !NoSetup(events) && Stalled !in s.p.status && IsSetupPacket(t.p.setup) && Oversized(t.p.setup, c))
              && (Stalled in u.p.status && Stalled !in t.p.status <==>
                    !NoSetup(events) && Stalled in s.p.status && IsSetupPacket(t.p.setup) && !Oversized(t.p.setup, c))
  {
    hide Run, TaskStep, StoreStep, CompletedLast, Oversized;
    LoadKeeps(s, e, c);
    var a := Step(s, e, c);
    FlagsAfter(a, events, c);
    StoreWrites(Run(a, events, c));
  }

  // ----- runs that reach these cases

  lemma AtRest(s: System)
    requires Quiet(s)
    ensures Inv(s) && s.p.status * SETUP == {} && TaskPending !in s.p.status && Field(s) == {}
  {
    QuietInv(s);
    assert s.p.status * SETUP == (s.p.status * (SETUP + TASK_PENDING)) * SETUP;
    assert TaskPending in s.p.status ==> TaskPending in s.p.status * (SETUP + TASK_PENDING);
  }

  /** A read that arrives while the task stalls the endpoint is lost: it comes before the device stack in no run
      without another packet. */
  lemma StallLosesRequest(s: System, read: seq<byte>, c: Config)
    requires Quiet(s) && IsSetupPacket(read) && OwnKind(read) == SETUP_IN
    ensures var t := Run(s, [Stall, SetupArrives(read), Store], c);
            && t.lost == [SETUP_IN] && t.p.status * SETUP == {} && t.arrivals == [read]
            && forall events: seq<Event> :: NoSetup(events) ==> Run(t, events, c).handled == []
  {
    hide Run, SetupStage, Merged, LastDispatch, DataLength, Inv;
    AtRest(s);
    RunThree(s, Stall, SetupArrives(read), Store, c);
    var a := Step(s, Stall, c);
    var b := Step(a, SetupArrives(read), c);
    var t := Step(b, Store, c);
    SetupPosts(a.p, read, c);
    KindsDiffer();
    assert b.p.status * SETUP == SETUP_IN && b.pending == [] + [SETUP_IN];
    StepKeeps(s, Stall, c);
    StepKeeps(a, SetupArrives(read), c);
    Settles(b, c);
    StateAfterSetup(a.p, read, c);
    forall events: seq<Event> | NoSetup(events) ensures Run(t, events, c).handled == [] {
      SafeRun(t, events, c);
    }
  }

  lemma StateAfterSetup(p: Pipe, packet: seq<byte>, c: Config)
    requires IsSetupPacket(packet) && OwnKind(packet) != SETUP_OUT
    ensures SetupStage(p, packet, c).state == p.state
  {
    KindsDiffer();
  }

  /** A dispatcher about to end: the request has been handled and refused. */
  lemma ReachLeaving(s: System, packet: seq<byte>, c: Config) returns (t: System)
    requires Quiet(s) && IsSetupPacket(packet) && PostedBySetup(packet, c) != {}
    ensures t == Run(s, [SetupArrives(packet), Claim, Proceed(false), Proceed(false)], c)
    ensures Inv(t) && t.update == NoUpdate && |t.active| == 1 && t.active[0].stage == Leaving
    ensures t.lost == [] && Field(t) == {} && t.pending == []
  {
    hide Run, Step, PostedBySetup, Inv;
    AtRest(s);
    RunFour(s, SetupArrives(packet), Claim, Proceed(false), Proceed(false), c);
    RunKeeps(s, [SetupArrives(packet), Claim, Proceed(false), Proceed(false)], c);
    StepKeeps(s, SetupArrives(packet), c);
    var a := Step(s, SetupArrives(packet), c);
    FirstPost(s, packet, c);
    var b := Step(a, Claim, c);
    FirstClaim(a, c);
    t := Step(Step(b, Proceed(false), c), Proceed(false), c);
    TwoProceeds(b, c);
  }

  lemma RunFour(s: System, e0: Event, e1: Event, e2: Event, e3: Event, c: Config)
    ensures Run(s, [e0, e1, e2, e3], c) == Step(Step(Step(Step(s, e0, c), e1, c), e2, c), e3, c)
  {
    hide Step, Run;
    RunTwo(s, e0, e1, c);
    RunTwo(Step(Step(s, e0, c), e1, c), e2, e3, c);
    RunSplit(s, [e0, e1], [e2, e3], c);
    assert [e0, e1] + [e2, e3] == [e0, e1, e2, e3];
  }

  lemma FirstPost(s: System, packet: seq<byte>, c: Config)
    requires Quiet(s) && IsSetupPacket(packet)
    ensures var a := Step(s, SetupArrives(packet), c);
            && a.p.status * SETUP == PostedBySetup(packet, c) && TaskPending !in a.p.status
            && a.update == NoUpdate && a.active == [] && a.lost == []
            && Done !in a.p.status && a.p.setup == packet
  {
    hide SetupStage, PostedBySetup;
    AtRest(s);
    SetupPosts(s.p, packet, c);
    SetupClears(s.p, packet, c);
  }

  lemma FirstClaim(a: System, c: Config)
    requires a.p.status * SETUP != {} && TaskPending !in a.p.status && a.update == NoUpdate && a.active == []
    ensures var b := Step(a, Claim, c);
            && b.update == NoUpdate && |b.active| == 1 && b.active[0].stage == Entering && b.pending == []
            && b.active[0].kind == a.p.status * SETUP && Field(b) == {} && b.lost == a.lost
            && (Done in b.p.status <==> Done in a.p.status)
  {
    ClaimBits(a.p);
  }

  lemma TwoProceeds(b: System, c: Config)
    requires b.update == NoUpdate && |b.active| == 1 && b.active[0].stage == Entering
    ensures var t := Step(Step(b, Proceed(false), c), Proceed(false), c);
            && t.update == NoUpdate && |t.active| == 1 && t.active[0].stage == Leaving
            && t.pending == b.pending && t.lost == b.lost && Field(t) == Field(b)
            && (b.active[0].kind == SETUP_IN ==> t.p.state == DataTx) && t.p.status == b.p.status
  {
  }

  /** A read that arrives while a dispatch ends is lost in the same way. */
  lemma ReleaseLosesRequest(s: System, noData: seq<byte>, read: seq<byte>, c: Config)
    requires Quiet(s) && IsSetupPacket(noData) && IsSetupPacket(read)
    requires OwnKind(noData) == SETUP_STATUS && OwnKind(read) == SETUP_IN
    ensures var t := Run(s, [SetupArrives(noData), Claim, Proceed(false), Proceed(false)], c);
            var u := Run(t, [Proceed(false), SetupArrives(read), Store], c);
            u.lost == [SETUP_IN] && u.p.status * SETUP == {}
  {
    hide Run, Step, DataLength;
    KindsDiffer();
    var t := ReachLeaving(s, noData, c);
    RunThree(t, Proceed(false), SetupArrives(read), Store, c);
    ReadDuringRelease(t, read, c);
  }

  lemma ReadDuringRelease(t: System, read: seq<byte>, c: Config)
    requires t.update == NoUpdate && |t.active| == 1 && t.active[0].stage == Leaving
    requires t.lost == [] && Field(t) == {} && t.pending == [] && IsSetupPacket(read) && OwnKind(read) == SETUP_IN
    ensures var u := Step(Step(Step(t, Proceed(false), c), SetupArrives(read), c), Store, c);
            u.lost == [SETUP_IN] && u.p.status * SETUP == {}
  {
    hide SetupStage, DataLength;
    KindsDiffer();
    var a := Step(t, Proceed(false), c);
    SetupPosts(a.p, read, c);
    var b := Step(a, SetupArrives(read), c);
    assert b.p.status * SETUP == SETUP_IN && b.pending == [] + [SETUP_IN];
    assert (t.p.status - TASK_PENDING) * SETUP == t.p.status * SETUP;
    assert b.lost + b.pending[0..] == [SETUP_IN];
  }

  /** A read whose last packet is sent while its dispatch ends is never reported complete: DONE is gone. */
  lemma ReleaseLosesCompletion(s: System, read: seq<byte>, c: Config)
    requires Quiet(s) && IsSetupPacket(read) && OwnKind(read) == SETUP_IN
    ensures var t := Run(s, [SetupArrives(read), Claim, Proceed(false), Proceed(false)], c);
            var u := Run(Step(t, ArmIn(0, false), c), [Proceed(false), PacketSent, Store], c);
            u.p.state == StatusRx && u.p.completed && Done !in u.p.status
  {
    hide Run, Step, DataLength;
    KindsDiffer();
    var t := ReachLeaving(s, read, c);
    ReadReachesDataTx(s, read, c);
    RunThree(Step(t, ArmIn(0, false), c), Proceed(false), PacketSent, Store, c);
    SentDuringRelease(t, c);
  }

  lemma SentDuringRelease(t: System, c: Config)
    requires t.update == NoUpdate && |t.active| == 1 && t.active[0].stage == Leaving
    requires t.p.state == DataTx && Done !in t.p.status
    ensures var u := Step(Step(Step(Step(t, ArmIn(0, false), c), Proceed(false), c), PacketSent, c), Store, c);
            u.p.state == StatusRx && u.p.completed && Done !in u.p.status
  {
  }

  lemma ReadReachesDataTx(s: System, read: seq<byte>, c: Config)
    requires Quiet(s) && IsSetupPacket(read) && OwnKind(read) == SETUP_IN
    ensures var t := Run(s, [SetupArrives(read), Claim, Proceed(false), Proceed(false)], c);
            t.p.state == DataTx && Done !in t.p.status
  {
    hide Run, Step;
    KindsDiffer();
    RunFour(s, SetupArrives(read), Claim, Proceed(false), Proceed(false), c);
    FirstPost(s, read, c);
    var a := Step(s, SetupArrives(read), c);
    FirstClaim(a, c);
    TwoProceeds(Step(a, Claim, c), c);
  }
}
