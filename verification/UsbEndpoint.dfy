/**
 Transfers on the endpoints other than 0: a polled task arms them, an interrupt completes them. The status word
 is shown to be a protocol state, and every completion the task sees to be that of its own transfer.
 */
module UsbEndpoint {
  import opened UsbStatus
  import opened UsbDriver

  /** `outstanding` counts HAL transfers armed and not completed; `log` records what happened to transfers. */
  datatype State = State(p: Pipe, outstanding: nat, update: Update, log: seq<Entry>)

  /** A task between the load and the store of a stall, which no critical section protects; `mark` entries had
      been logged at the load. */
  datatype Update = NoUpdate | Stalling(loaded: Word, mark: nat)

  /** Lost: a completion or a transfer was dropped by a reset, an abort, or the store of a stall. */
  datatype Entry = Start | Zlp | Finish | Report | Lost | Destroyed

  datatype Event =
    | Prepare(requested: nat, forceZlp: bool)      // the device stack fills in a request
    | Poll(busReset: bool)                         // _ux_dcd_stm32_transfer_run
    | Complete(count: nat)                         // the HAL calls back
    | Stall                                        // the load of _ux_dcd_stm32_endpoint_stall
    | Store                                        // its store
    | Reset(cancels: bool)                         // whether the flush cancels what is armed
    | Abort
    | Destroy

  /** A HAL callback comes only for an armed transfer, and requests are filled in only while none is under way.
      Between the load and the store of a stall only the callback runs. */
  function Step(s: State, e: Event, transmits: bool): State {
    match e
    case Complete(count) => if s.outstanding == 0 then s else CompleteStep(s, count, transmits)
    case Store => StoreStep(s)
    case _ => if s.update == NoUpdate then TaskStep(s, e, transmits) else s
  }

  function CompleteStep(s: State, count: nat, transmits: bool): State
    requires s.outstanding > 0
  {
    var q := if transmits then InComplete(s.p) else OutComplete(s.p, count);
    if Done in q.status then s.(p := q, outstanding := s.outstanding - 1, log := s.log + [Finish])
    else s.(p := q, log := s.log + [Zlp])
  }

  /** A completion that came after the load is overwritten. */
  function StoreStep(s: State): State {
    if s.update == NoUpdate then s else
    var t := s.(p := StoreStall(s.p, s.update.loaded), update := NoUpdate);
    if Done in s.p.status && Done !in s.update.loaded then t.(log := s.log + [Lost]) else t
  }

  function TaskStep(s: State, e: Event, transmits: bool): State {
    match e
    case Prepare(requested, forceZlp) =>
      if Transferring in s.p.status then s
      else s.(p := s.p.(requested := requested, inLength := requested, forceZlp := forceZlp))
    case Poll(busReset) => PollStep(s, busReset, transmits).0
    case Stall => s.(update := Stalling(s.p.status, |s.log|))
    case Reset(cancels) =>
      var q := EndpointReset(s.p);
      if Done in s.p.status || (cancels && s.outstanding > 0)
      then s.(p := q, outstanding := 0, log := s.log + [Lost]) else s.(p := q)
    case Abort => if s.outstanding > 0 then s.(outstanding := 0, log := s.log + [Lost]) else s
    case Destroy => s.(p := s.p.(status := UNUSED), outstanding := 0, log := s.log + [Destroyed])
    case _ => s
  }

  /** A poll with its verdict. A transfer was started when one more HAL call was made, and its completion was
      reported when the verdict is Next without a stall. */
  function PollStep(s: State, busReset: bool, transmits: bool): (State, Verdict) {
    var (q, verdict) := TransferRun(s.p, busReset, transmits);
    if q.calls != s.p.calls then (s.(p := q, outstanding := s.outstanding + 1, log := s.log + [Start]), verdict)
    else if verdict == Next && Stalled !in s.p.status then (s.(p := q, log := s.log + [Report]), verdict)
    else (s.(p := q), verdict)
  }

  function Run(s: State, events: seq<Event>, transmits: bool): State
    decreases |events|
  {
    if events == [] then s else Run(Step(s, events[0], transmits), events[1..], transmits)
  }

  // ----- the protocol

  datatype Phase = Resting | InFlight(zlpSent: bool) | Finished | Stuck | Impossible

  /** The only ways a transfer can go. */
  function After(phase: Phase, e: Entry): Phase {
    match e
    case Start => if phase == Resting then InFlight(false) else Impossible
    case Zlp => if phase == InFlight(false) then InFlight(true) else Impossible
    case Finish => if phase.InFlight? then Finished else Impossible
    case Report => if phase == Finished then Resting else Impossible
    case Lost => if phase.InFlight? || phase == Finished then Stuck else Impossible
    case Destroyed => if phase == Impossible then Impossible else Resting
  }

  function PhaseOf(log: seq<Entry>): Phase
    decreases |log|
  {
    if log == [] then Resting else After(PhaseOf(log[..|log| - 1]), log[|log| - 1])
  }

  /** The status word is the protocol state, and a stall under way misses exactly the completions since its load. */
  predicate Inv(s: State) {
    StatusInv(s) && UpdateInv(s)
  }

  predicate StatusInv(s: State) {
    var phase := PhaseOf(s.log);
    && phase != Impossible
    && (Transferring in s.p.status <==> phase != Resting)
    && (Done in s.p.status <==> phase == Finished)
    && s.outstanding == (if phase.InFlight? then 1 else 0)
    && (phase == InFlight(true) ==> !s.p.forceZlp)
  }

  predicate UpdateInv(s: State) {
    s.update != NoUpdate ==>
      && s.update.mark <= |s.log|
      && (Transferring in s.update.loaded <==> Transferring in s.p.status)
      && (Done in s.update.loaded ==> Done in s.p.status)
      && (Finish in s.log[s.update.mark..] <==> Done in s.p.status && Done !in s.update.loaded)
  }

  lemma OneMoreEntry(log: seq<Entry>, e: Entry)
    ensures PhaseOf(log + [e]) == After(PhaseOf(log), e)
  {
  }

  /** What a poll answers and does, phase by phase. */
  lemma PollByPhase(s: State, busReset: bool, transmits: bool)
    requires Inv(s) && s.update == NoUpdate
    ensures var (t, verdict) := PollStep(s, busReset, transmits);
            var phase := PhaseOf(s.log);
            && Inv(t)
            && (verdict == Exit <==> busReset) && (busReset ==> t == s.(p := s.p.(code := BusReset)))
            && (!busReset && Stalled in s.p.status ==> verdict == Next && t.log == s.log && t.p.code == TransferStalled)
            && (!busReset && Stalled !in s.p.status ==>
                  if phase == Finished then verdict == Next && t.log == s.log + [Report]
                  else verdict == Wait && t.log == if phase == Resting then s.log + [Start] else s.log)
  {
    hide PhaseOf;
    OneMoreEntry(s.log, Start);
    OneMoreEntry(s.log, Report);
    StatusTests(s.p.status);
    var kept := s.p.status * (USED + STALLED + TASK_PENDING);
    assert Transferring !in kept && Done !in kept;
  }

  lemma CompleteKeeps(s: State, count: nat, transmits: bool)
    requires Inv(s) && s.outstanding > 0
    ensures Inv(CompleteStep(s, count, transmits))
  {
    hide PhaseOf;
    OneMoreEntry(s.log, Finish);
    OneMoreEntry(s.log, Zlp);
    if s.update != NoUpdate {
      var m := s.update.mark;
      assert (s.log + [Finish])[m..] == s.log[m..] + [Finish] && (s.log + [Zlp])[m..] == s.log[m..] + [Zlp];
    }
  }

  lemma StoreKeeps(s: State)
    requires Inv(s)
    ensures Inv(StoreStep(s))
  {
    hide PhaseOf;
    OneMoreEntry(s.log, Lost);
  }

  lemma StepKeeps(s: State, e: Event, transmits: bool)
    requires Inv(s)
    ensures Inv(Step(s, e, transmits))
    ensures s.log <= Step(s, e, transmits).log
  {
    hide PhaseOf, PollStep, CompleteStep, StoreStep;
    match e
    case Poll(busReset) =>
      if s.update == NoUpdate {
        PollByPhase(s, busReset, transmits);
        PollExtends(s, busReset, transmits);
      }
    case Complete(count) =>
      if s.outstanding > 0 {
        CompleteKeeps(s, count, transmits);
        CompleteExtends(s, count, transmits);
      }
    case Store =>
      StoreKeeps(s);
      StoreExtends(s);
    case Reset(cancels) => OneMoreEntry(s.log, Lost);
    case Abort => OneMoreEntry(s.log, Lost);
    case Destroy => OneMoreEntry(s.log, Destroyed);
    case Stall => assert s.log[|s.log|..] == [];
    case _ =>
  }

  lemma CompleteExtends(s: State, count: nat, transmits: bool)
    requires s.outstanding > 0
    ensures s.log <= CompleteStep(s, count, transmits).log
  {
  }

  lemma StoreExtends(s: State)
    ensures s.log <= StoreStep(s).log
  {
  }

  /** The store of a stall loses a completion exactly when the transfer finished after the load. */
  lemma StallLosesCompletionIff(s: State, transmits: bool)
    requires Inv(s) && s.update != NoUpdate
    ensures Step(s, Store, transmits).log == (if Finish in s.log[s.update.mark..] then s.log + [Lost] else s.log)
  {
    hide PhaseOf;
  }

  lemma PollExtends(s: State, busReset: bool, transmits: bool)
    ensures s.log <= PollStep(s, busReset, transmits).0.log && PollStep(s, busReset, transmits).0.update == s.update
  {
  }

  lemma {:induction false} RunKeeps(s: State, events: seq<Event>, transmits: bool)
    requires Inv(s)
    ensures Inv(Run(s, events, transmits))
    decreases |events|
  {
    hide Inv, Step;
    if events != [] {
      StepKeeps(s, events[0], transmits);
      RunKeeps(Step(s, events[0], transmits), events[1..], transmits);
    }
  }

  /** An endpoint as it is created. */
  predicate Created(s: State) { s.log == [] && s.outstanding == 0 && s.update == NoUpdate && s.p.status == USED }

  /** Over every run: a completed transfer is one that was started, at most one HAL transfer is outstanding, and it
      is outstanding only between the start and the completion. */
  lemma OneTransferAtATime(s: State, events: seq<Event>, transmits: bool)
    requires Created(s)
    ensures var t := Run(s, events, transmits);
            && (Done in t.p.status ==> Transferring in t.p.status)
            && t.outstanding <= 1
            && (t.outstanding == 1 ==> Transferring in t.p.status && Done !in t.p.status)
  {
    hide Run;
    assert PhaseOf(s.log) == Resting;
    RunKeeps(s, events, transmits);
  }

  /** In a possible log, entry `to` is reached from a start at `from` with nothing in between but at most one
      zero-length packet. */
  predicate StartedAt(log: seq<Entry>, from: nat, to: nat) {
    && from < to <= |log| && log[from] == Start && to - from <= 2
    && forall k :: from < k < to ==> log[k] == Zlp
  }

  lemma {:induction false} FlightHasStart(log: seq<Entry>) returns (from: nat)
    requires PhaseOf(log).InFlight?
    ensures StartedAt(log, from, |log|)
    ensures !PhaseOf(log).zlpSent ==> from == |log| - 1
    decreases |log|
  {
    var n := |log| - 1;
    from := n;
    if log[n] == Zlp {
      from := FlightHasStart(log[..n]);
      assert log[..n][from] == log[from];
    }
  }

  lemma {:induction false} PrefixPossible(log: seq<Entry>, n: nat)
    requires n <= |log| && PhaseOf(log) != Impossible
    ensures PhaseOf(log[..n]) != Impossible
    decreases |log|
  {
    if n < |log| {
      PrefixPossible(log[..|log| - 1], n);
      assert log[..|log| - 1][..n] == log[..n];
    } else {
      assert log[..n] == log;
    }
  }

  /** Every completion the task was told of came directly before, and it completed a transfer that had been
      started after everything reported earlier: no completion is reported twice or to a later transfer. */
  lemma ReportConsumesItsCompletion(s: State, events: seq<Event>, transmits: bool, k: nat) returns (from: nat)
    requires Created(s)
    requires k < |Run(s, events, transmits).log| && Run(s, events, transmits).log[k] == Report
    ensures var log := Run(s, events, transmits).log;
            k >= 2 && log[k - 1] == Finish && StartedAt(log, from, k - 1)
  {
    hide Run;
    assert PhaseOf(s.log) == Resting;
    RunKeeps(s, events, transmits);
    var log := Run(s, events, transmits).log;
    PrefixPossible(log, k + 1);
    assert log[..k + 1][..k] == log[..k];
    assert PhaseOf(log[..k]) == Finished;
    assert log[..k][..k - 1] == log[..k - 1];
    assert log[..k][k - 1] == log[k - 1];
    from := FlightHasStart(log[..k - 1]);
    assert forall i :: from <= i < k - 1 ==> log[..k - 1][i] == log[i];
    assert StartedAt(log, from, k - 1);
  }

  /** An abort leaves nothing outstanding, and loses the transfer exactly when one was in flight. */
  lemma AbortLosesIff(s: State, transmits: bool)
    requires Inv(s) && s.update == NoUpdate
    ensures var t := Step(s, Abort, transmits);
            && t.outstanding == 0 && t.p == s.p
            && t.log == (if PhaseOf(s.log).InFlight? then s.log + [Lost] else s.log)
  {
    hide PhaseOf;
  }

  /** What happens to an endpoint whose task only goes on asking. */
  predicate OnlyPolled(events: seq<Event>) {
    forall i :: 0 <= i < |events| ==> events[i].Prepare? || events[i] == Poll(false) || events[i].Complete?
  }

  /** The transfer bit is set, and nothing will ever complete. */
  predicate Stranded(s: State) {
    && s.outstanding == 0 && s.update == NoUpdate
    && Transferring in s.p.status && Done !in s.p.status && Stalled !in s.p.status
  }

  lemma {:induction false} StrandedStays(s: State, events: seq<Event>, transmits: bool)
    requires Stranded(s) && OnlyPolled(events)
    ensures Run(s, events, transmits) == s && PollStep(s, false, transmits) == (s, Wait)
    decreases |events|
  {
    StatusTests(s.p.status);
    if events != [] {
      assert Step(s, events[0], transmits) == s;
      StrandedStays(s, events[1..], transmits);
    }
  }

  lemma ResetPhase(s: State, cancels: bool, transmits: bool)
    requires Inv(s) && s.update == NoUpdate
    ensures var r, phase := Step(s, Reset(cancels), transmits), PhaseOf(s.log);
            && Inv(r) && r.update == NoUpdate && Stalled !in r.p.status
            && PhaseOf(r.log) == if phase == Finished || (phase.InFlight? && cancels) then Stuck else phase
  {
    hide PhaseOf;
    OneMoreEntry(s.log, Lost);
  }

  lemma {:induction false} RunThree(s: State, e0: Event, e1: Event, e2: Event, transmits: bool)
    ensures Run(s, [e0, e1, e2], transmits) == Step(Step(Step(s, e0, transmits), e1, transmits), e2, transmits)
  {
    hide Step;
    var s1 := Step(s, e0, transmits);
    var s2 := Step(s1, e1, transmits);
    assert [e2][1..] == [] && Run(s2, [e2], transmits) == Run(Step(s2, e2, transmits), [], transmits);
    assert [e1, e2][1..] == [e2] && Run(s1, [e1, e2], transmits) == Run(s2, [e2], transmits);
    assert [e0, e1, e2][1..] == [e1, e2];
  }

  /** A transfer that is armed is completed by two callbacks at most. */
  lemma TwoCallbacksFinish(s: State, transmits: bool)
    requires Inv(s) && PhaseOf(s.log).InFlight?
    ensures PhaseOf(Step(Step(s, Complete(0), transmits), Complete(0), transmits).log) == Finished
  {
    hide PhaseOf;
    OneMoreEntry(s.log, Finish);
    OneMoreEntry(s.log, Zlp);
    OneMoreEntry(s.log + [Zlp], Finish);
    CompleteKeeps(s, 0, transmits);
  }

  lemma CallbacksKeepStall(s: State, transmits: bool)
    ensures Step(s, Complete(0), transmits).update == s.update
    ensures Stalled in Step(s, Complete(0), transmits).p.status <==> Stalled in s.p.status
  {
  }

  /** If the endpoint is resting or in flight, a poll and callbacks lead to a report. */
  lemma ReportComes(r: State, transmits: bool)
    requires Inv(r) && r.update == NoUpdate && Stalled !in r.p.status
    requires PhaseOf(r.log) == Resting || PhaseOf(r.log).InFlight?
    ensures PollStep(Run(r, [Poll(false), Complete(0), Complete(0)], transmits), false, transmits).1 == Next
  {
    hide PhaseOf, Run, CompleteStep;
    RunThree(r, Poll(false), Complete(0), Complete(0), transmits);
    PollByPhase(r, false, transmits);
    PollKeepsUnstalled(r, transmits);
    OneMoreEntry(r.log, Start);
    var a := Step(r, Poll(false), transmits);
    var b := Step(a, Complete(0), transmits);
    TwoCallbacksFinish(a, transmits);
    StepKeeps(a, Complete(0), transmits);
    StepKeeps(b, Complete(0), transmits);
    CallbacksKeepStall(a, transmits);
    CallbacksKeepStall(b, transmits);
    PollByPhase(Step(b, Complete(0), transmits), false, transmits);
  }

  lemma PollKeepsUnstalled(s: State, transmits: bool)
    requires Stalled !in s.p.status
    ensures Stalled !in PollStep(s, false, transmits).0.p.status
    ensures PollStep(s, false, transmits).0.update == s.update
  {
  }

  /** After a reset polling answers Wait for ever exactly when the reset found a completed transfer or one already
      stuck, or cancelled one in flight: the transfer bit stays, and nothing is left to complete. */
  lemma {:induction false} ResetStrandsIff(s: State, cancels: bool, transmits: bool)
    requires Inv(s) && s.update == NoUpdate
    ensures (forall events: seq<Event> :: OnlyPolled(events) ==>
               PollStep(Run(Step(s, Reset(cancels), transmits), events, transmits), false, transmits).1 == Wait)
            <==> var phase := PhaseOf(s.log); phase == Finished || phase == Stuck || (phase.InFlight? && cancels)
  {
    hide PhaseOf, Run, PollStep, Step;
    ResetPhase(s, cancels, transmits);
    var r := Step(s, Reset(cancels), transmits);
    if PhaseOf(r.log) == Stuck {
      forall events: seq<Event> | OnlyPolled(events)
        ensures PollStep(Run(r, events, transmits), false, transmits).1 == Wait
      {
        StrandedStays(r, events, transmits);
      }
    } else {
      var events := [Poll(false), Complete(0), Complete(0)];
      assert OnlyPolled(events);
      if PhaseOf(r.log) != Finished { ReportComes(r, transmits); }
    }
  }

  // ----- runs that reach these cases

  lemma CreatedRests(s: State)
    requires Created(s)
    ensures Inv(s) && PhaseOf(s.log) == Resting && Stalled !in s.p.status
  {
  }

  /** The first transfer of an endpoint that asks for no zero-length packet. */
  lemma FirstTransfer(s: State, transmits: bool)
    requires Created(s) && !s.p.forceZlp
    ensures var t := Step(s, Poll(false), transmits);
            && Inv(t) && t.log == [Start] && t.outstanding == 1 && t.update == NoUpdate && !t.p.forceZlp
            && Stalled !in t.p.status && Done !in t.p.status
  {
    hide PhaseOf;
    CreatedRests(s);
    PollByPhase(s, false, transmits);
    PollExtends(s, false, transmits);
    PollKeepsUnstalled(s, transmits);
    assert [] + [Start] == [Start];
    StepKeeps(s, Poll(false), transmits);
    PollStarts(s, transmits);
    OneMoreEntry([], Start);
    NoEntries();
  }

  lemma NoEntries()
    ensures PhaseOf([]) == Resting
  {
  }

  lemma PollStarts(s: State, transmits: bool)
    requires Transferring !in s.p.status && Stalled !in s.p.status && Done !in s.p.status
    ensures var t := PollStep(s, false, transmits).0;
            t.p.forceZlp == s.p.forceZlp && t.outstanding == s.outstanding + 1 && Done !in t.p.status
  {
  }

  /** A transfer that ends while the task stalls the endpoint is never reported as done. */
  lemma StallLosesCompletion(s: State, transmits: bool)
    requires Created(s) && !s.p.forceZlp
    ensures var t := Run(s, [Poll(false), Stall, Complete(0), Store], transmits);
            && t.log == [Start, Finish, Lost] && Done !in t.p.status && Transferring in t.p.status
            && PhaseOf(t.log) == Stuck
  {
    hide Run, PhaseOf;
    FirstTransfer(s, transmits);
    var a := Step(s, Poll(false), transmits);
    RunCons(s, Poll(false), [Stall, Complete(0), Store], transmits);
    assert [Poll(false)] + [Stall, Complete(0), Store] == [Poll(false), Stall, Complete(0), Store];
    RunThree(a, Stall, Complete(0), Store, transmits);
    StallDuringCompletion(a, transmits);
    StepKeeps(a, Stall, transmits);
    StepKeeps(Step(a, Stall, transmits), Complete(0), transmits);
    StepKeeps(Step(Step(a, Stall, transmits), Complete(0), transmits), Store, transmits);
    NoEntries();
    OneMoreEntry([], Start);
    OneMoreEntry([Start], Finish);
    OneMoreEntry([Start, Finish], Lost);
    assert [] + [Start] == [Start] && [Start] + [Finish] == [Start, Finish];
    assert [Start, Finish] + [Lost] == [Start, Finish, Lost];
  }

  lemma StallDuringCompletion(a: State, transmits: bool)
    requires a.update == NoUpdate && a.outstanding == 1 && a.log == [Start] && !a.p.forceZlp && Done !in a.p.status
    ensures Step(Step(Step(a, Stall, transmits), Complete(0), transmits), Store, transmits).log == [Start, Finish, Lost]
  {
    assert [Start] + [Finish] + [Lost] == [Start, Finish, Lost];
  }

  lemma RunCons(s: State, e: Event, events: seq<Event>, transmits: bool)
    ensures Run(s, [e] + events, transmits) == Run(Step(s, e, transmits), events, transmits)
  {
    assert ([e] + events)[1..] == events;
  }

  /** A reset after a transfer has completed, but before the task has asked, leaves it asking for ever. */
  lemma {:induction false} ResetStrands(s: State, transmits: bool, events: seq<Event>)
    requires Created(s) && !s.p.forceZlp && OnlyPolled(events)
    ensures var t := Run(s, [Poll(false), Complete(0), Reset(false)], transmits);
            PollStep(Run(t, events, transmits), false, transmits).1 == Wait
  {
    hide Run, PhaseOf, PollStep;
    FirstTransfer(s, transmits);
    var a := Step(s, Poll(false), transmits);
    var b := Step(a, Complete(0), transmits);
    RunThree(s, Poll(false), Complete(0), Reset(false), transmits);
    StepKeeps(a, Complete(0), transmits);
    FirstCompletes(a, transmits);
    NoEntries();
    OneMoreEntry([], Start);
    OneMoreEntry([Start], Finish);
    assert [] + [Start] == [Start] && [Start] + [Finish] == [Start, Finish];
    ResetStrandsIff(b, false, transmits);
  }

  lemma FirstCompletes(a: State, transmits: bool)
    requires a.outstanding == 1 && a.log == [Start] && !a.p.forceZlp && a.update == NoUpdate
    ensures var b := Step(a, Complete(0), transmits); b.log == [Start, Finish] && b.update == NoUpdate
  {
    assert [Start] + [Finish] == [Start, Finish];
  }

  // ----- the driver object

  /** An endpoint other than 0 with the history of its transfers; no method is interrupted. */
  class Transfers {
    const e: Endpoint
    ghost var outstanding: nat
    ghost var log: seq<Entry>

    ghost function Now(): State
      reads this, e
    {
      State(e.Now(), outstanding, NoUpdate, log)
    }

    ghost predicate Valid()
      reads this, e
    {
      e.number != 0 && Inv(Now())
    }

    constructor (number: nat, c: Config)
      requires number != 0
      ensures Valid() && Created(Now()) && fresh(e)
    {
      e := new Endpoint(number, c);
      outstanding, log := 0, [];
    }

    method Poll(busReset: bool, transmits: bool) returns (verdict: Verdict)
      requires Valid()
      modifies this, e
      ensures Valid() && (Now(), verdict) == PollStep(old(Now()), busReset, transmits)
    {
      PollByPhase(Now(), busReset, transmits);
      PollExtends(Now(), busReset, transmits);
      ghost var t := PollStep(Now(), busReset, transmits).0;
      verdict := e.Run(busReset, transmits);
      outstanding, log := t.outstanding, t.log;
    }

    /** The HAL calls back for the transfer that is armed. */
    method Complete(count: nat, transmits: bool)
      requires Valid() && outstanding > 0
      modifies this, e
      ensures Valid() && Now() == Step(old(Now()), Event.Complete(count), transmits)
    {
      hide InComplete, OutComplete;
      CompleteKeeps(Now(), count, transmits);
      ghost var t := CompleteStep(Now(), count, transmits);
      if transmits {
        e.OnDataIn();
      } else {
        e.OnDataOut(count);
      }
      outstanding, log := t.outstanding, t.log;
    }

    method Stall()
      requires Valid()
      modifies e
      ensures Valid() && e.Now() == EndpointStall(old(e.Now()))
    {
      e.Stall();
    }

    /** The flush may or may not cancel what is armed. */
    method Reset(ghost cancels: bool, ghost transmits: bool)
      requires Valid()
      modifies this, e
      ensures Valid() && Now() == Step(old(Now()), Event.Reset(cancels), transmits)
    {
      StepKeeps(Now(), Event.Reset(cancels), transmits);
      ghost var t := Step(Now(), Event.Reset(cancels), transmits);
      e.Reset();
      outstanding, log := t.outstanding, t.log;
    }
  }
}
