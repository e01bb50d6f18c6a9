/**
 Which request a dispatch serves. The dispatcher knows only the merged bits it claimed; the device stack reads the
 SETUP packet, which every new packet overwrites. Both views are compared over all interleavings.
 */
module UsbSetupRequests {
  import opened Bytes
  import opened UsbStatus
  import opened UsbDriver
  import opened UsbSetupDispatch

  datatype Handler = HandleIn | HandleOut | HandleStatus

  /** The switch in the dispatcher. */
  function HandlerOf(claimed: Word): Handler {
    if claimed == SETUP_IN then HandleIn else if claimed == SETUP_OUT then HandleOut else HandleStatus
  }

  /** The kind of a request by its own packet: a read, a request without data, or a write with data. */
  function OwnKind(packet: seq<byte>): Word
    requires IsSetupPacket(packet)
  {
    if packet[0] >= REQUEST_IN then SETUP_IN else if DataLength(packet) == 0 then SETUP_STATUS else SETUP_OUT
  }

  /** The posts merge into that kind: reads and requests without data need their own post and no other; a write
      needs a completed data stage, or else a read and a request without data that happen to have both its bits. */
  predicate PostedAs(posted: seq<Word>, own: Word) {
    if own == SETUP_OUT then SETUP_OUT in posted || (SETUP_IN in posted && SETUP_STATUS in posted)
    else forall i :: 0 <= i < |posted| ==> posted[i] == own
  }

  lemma KindsDiffer()
    ensures SETUP_IN != SETUP_OUT && SETUP_STATUS != SETUP_OUT && SETUP_IN != SETUP_STATUS
    ensures SETUP_IN <= SETUP_OUT && SETUP_STATUS <= SETUP_OUT
    ensures !(SETUP_OUT <= SETUP_IN) && !(SETUP_OUT <= SETUP_STATUS)
    ensures !(SETUP_IN <= SETUP_STATUS) && !(SETUP_STATUS <= SETUP_IN)
    ensures SETUP_IN != {} && SETUP_STATUS != {} && SETUP_OUT != {}
  {
    assert SetupHigh !in SETUP_IN && SetupLow !in SETUP_STATUS;
    assert SetupHigh in SETUP_OUT && SetupLow in SETUP_OUT && SetupLow in SETUP_IN && SetupHigh in SETUP_STATUS;
  }

  lemma {:induction false} MergedCases(posted: seq<Word>)
    requires posted != [] && AllKinds(posted)
    ensures IsKind(Merged(posted))
    ensures Merged(posted) == SETUP_IN <==> PostedAs(posted, SETUP_IN)
    ensures Merged(posted) == SETUP_STATUS <==> PostedAs(posted, SETUP_STATUS)
    ensures Merged(posted) == SETUP_OUT <==> PostedAs(posted, SETUP_OUT)
    decreases |posted|
  {
    KindsDiffer();
    var n := |posted| - 1;
    var rest, last := posted[..n], posted[n];
    assert posted == rest + [last];
    if rest == [] {
      assert Merged(posted) == last;
    } else {
      MergedCases(rest);
      assert Merged(posted) == Merged(rest) + last;
      assert SETUP_IN + SETUP_STATUS == SETUP_OUT;
      assert PostedAs(posted, SETUP_IN) <==> PostedAs(rest, SETUP_IN) && last == SETUP_IN;
      assert PostedAs(posted, SETUP_STATUS) <==> PostedAs(rest, SETUP_STATUS) && last == SETUP_STATUS;
    }
  }

  /** Over every run: the request put before the device stack is the latest SETUP packet, and the handler entered
      is the one of that request exactly when the posts the claim merged were posted as its kind. A request that
      has posted nothing yet, or that arrives after the claim, meets the condition only if others' posts do. */
  lemma HandlerFollowsPosts(s: System, events: seq<Event>, c: Config, i: nat)
    requires Quiet(s) && i < |Run(s, events, c).handled|
    ensures var t := Run(s, events, c);
            var h := t.handled[i];
            && 0 < h.number <= |t.arrivals| && h.setup == t.arrivals[h.number - 1] && IsSetupPacket(h.setup)
            && (HandlerOf(h.claimed) == HandlerOf(OwnKind(h.setup)) <==> PostedAs(h.posted, OwnKind(h.setup)))
  {
    hide Run, Merged, Sound, LastDispatch, PostedAs, Quiet, DataLength;
    QuietInv(s);
    RunKeeps(s, events, c);
    KindsDiffer();
    MergedCases(Run(s, events, c).handled[i].posted);
  }

  // ----- dispatches and handled requests

  function Dispatches(ws: seq<Window>): seq<Window>
    decreases |ws|
  {
    if ws == [] then [] else
      Dispatches(ws[..|ws| - 1]) + if ws[|ws| - 1].Dispatched? then [ws[|ws| - 1]] else []
  }

  function AsDispatches(hs: seq<Handled>): seq<Window> {
    seq(|hs|, i requires 0 <= i < |hs| => Dispatched(hs[i].posted, hs[i].claimed))
  }

  predicate IsEntering(s: System) { s.active != [] && s.active[|s.active| - 1].stage == Entering }

  /** Every dispatched window has put one request before the device stack, except one about to. */
  predicate HandledInStep(s: System) {
    Dispatches(s.closed) == AsDispatches(s.handled)
      + if IsEntering(s) then [Dispatched(s.active[|s.active| - 1].posted, s.active[|s.active| - 1].kind)] else []
  }

  lemma DispatchesMore(ws: seq<Window>, w: Window)
    ensures Dispatches(ws + [w]) == Dispatches(ws) + if w.Dispatched? then [w] else []
  {
    assert (ws + [w])[..|ws|] == ws;
  }

  lemma StepInStep(s: System, e: Event, c: Config)
    requires Inv(s) && HandledInStep(s)
    ensures HandledInStep(Step(s, e, c))
  {
    hide Dispatches, Merged, LastDispatch, Sound, SoundHandled, SetupStage, DataOutStage, DataInStage, TransferRun;
    match e
    case Claim =>
      ClaimBits(s.p);
      DispatchesMore(s.closed, Dispatched(s.pending, s.p.status * SETUP));
    case Poll(_, _) => DispatchesMore(s.closed, Dropped(s.pending));
    case Reset => DispatchesMore(s.closed, Dropped(s.pending));
    case Proceed(_) =>
    case Store =>
    case _ =>
  }

  lemma {:induction false} EachDispatchHandlesOne(s: System, events: seq<Event>, c: Config)
    requires Inv(s) && HandledInStep(s)
    ensures HandledInStep(Run(s, events, c))
    decreases |events|
  {
    hide Inv, Step, HandledInStep;
    if events != [] {
      StepKeeps(s, events[0], c);
      StepInStep(s, events[0], c);
      EachDispatchHandlesOne(Step(s, events[0], c), events[1..], c);
    }
  }

  // ----- what can still come before the device stack

  predicate NoSetup(events: seq<Event>) { forall i :: 0 <= i < |events| ==> !events[i].SetupArrives? }

  /** The SETUP field as it is, or as the store of an update under way will leave it. */
  function Field(s: System): Word {
    match s.update
    case NoUpdate => s.p.status * SETUP
    case Stalling(loaded, _) => loaded * SETUP
    case Releasing(loaded, _) => loaded * SETUP
  }

  /** What the store of an update leaves. */
  lemma Settles(s: System, c: Config)
    requires Inv(s)
    ensures var t := Step(s, Store, c);
            && Inv(t) && t.update == NoUpdate && Field(t) == Field(s)
            && t.handled == s.handled && t.arrivals == s.arrivals && t.p.state == s.p.state
            && IsEntering(t) == IsEntering(s) && (IsEntering(s) ==> t.active == s.active)
  {
    hide Inv, StoreStep, Field;
    StepKeeps(s, Store, c);
    StoreSettles(s);
  }

  lemma StoreSettles(s: System)
    requires Inv(s)
    ensures var t := StoreStep(s);
            && t.update == NoUpdate && Field(t) == Field(s)
            && t.handled == s.handled && t.arrivals == s.arrivals && t.p.state == s.p.state
            && IsEntering(t) == IsEntering(s) && (IsEntering(s) ==> t.active == s.active)
  {
    hide PostsInv, HandledInv, Merged, LastDispatch, Sound;
    match s.update
    case NoUpdate =>
    case Stalling(loaded, _) => assert (loaded + STALLED) * SETUP == loaded * SETUP;
    case Releasing(loaded, _) => assert (loaded - TASK_PENDING) * SETUP == loaded * SETUP;
  }

  /** An endpoint at work on a claim goes on to its handler. */
  lemma Enters(s: System, c: Config)
    requires Inv(s) && s.update == NoUpdate && IsEntering(s)
    ensures var t := Step(s, Proceed(false), c);
            && Inv(t) && t.update == NoUpdate && !IsEntering(t) && Field(t) == Field(s) && t.arrivals == s.arrivals
            && t.handled == s.handled + [Handled(s.active[0].kind, s.active[0].posted, s.p.setup, |s.arrivals|)]
            && (s.active[0].kind == SETUP_OUT ==> t.p.state == s.p.state)
  {
    hide Inv, Step;
    StepKeeps(s, Proceed(false), c);
    OneActive(s);
    EnterFields(s, c);
  }

  lemma EnterFields(s: System, c: Config)
    requires s.update == NoUpdate && |s.active| == 1 && s.active[0].stage == Entering
    ensures var t := Step(s, Proceed(false), c);
            && t.update == NoUpdate && !IsEntering(t) && Field(t) == Field(s) && t.arrivals == s.arrivals
            && t.handled == s.handled + [Handled(s.active[0].kind, s.active[0].posted, s.p.setup, |s.arrivals|)]
            && (s.active[0].kind == SETUP_OUT ==> t.p.state == s.p.state)
  {
    KindsDiffer();
  }

  /** The same but for the dispatcher, which has become free. */
  ghost predicate Freed(s: System, t: System) {
    && Inv(t) && t.update == NoUpdate && t.active == [] && Field(t) == Field(s)
    && t.handled == s.handled && t.arrivals == s.arrivals && t.p.state == s.p.state && t.p.setup == s.p.setup
  }

  lemma Releases(s: System, c: Config) returns (events: seq<Event>)
    requires Inv(s) && s.update == NoUpdate && s.active != [] && s.active[0].stage == Leaving
    ensures NoSetup(events) && Freed(s, Run(s, events, c))
  {
    hide Inv, Run;
    events := [Proceed(false), Store];
    StepKeeps(s, Proceed(false), c);
    StepKeeps(Step(s, Proceed(false), c), Store, c);
    RunTwo(s, Proceed(false), Store, c);
    OneActive(s);
    ReleaseFields(s, c);
  }

  lemma ReleaseFields(s: System, c: Config)
    requires |s.active| == 1 && s.active[0].stage == Leaving && s.update == NoUpdate
    ensures var t := Step(Step(s, Proceed(false), c), Store, c);
            && t.update == NoUpdate && t.active == [] && Field(t) == Field(s)
            && t.handled == s.handled && t.arrivals == s.arrivals && t.p.state == s.p.state && t.p.setup == s.p.setup
  {
    assert (s.p.status - TASK_PENDING) * SETUP == s.p.status * SETUP;
  }

  lemma Finishes(s: System, c: Config)
    requires Inv(s) && s.update == NoUpdate && s.active != [] && s.active[0].stage == Processing
    ensures var t := Step(s, Proceed(false), c);
            && Inv(t) && t.update == NoUpdate && t.active != [] && t.active[0].stage == Leaving && Field(t) == Field(s)
            && t.handled == s.handled && t.arrivals == s.arrivals && t.p.state == s.p.state && t.p.setup == s.p.setup
  {
    hide Inv, Step;
    StepKeeps(s, Proceed(false), c);
    OneActive(s);
    FinishFields(s, c);
  }

  lemma FinishFields(s: System, c: Config)
    requires |s.active| == 1 && s.active[0].stage == Processing && s.update == NoUpdate
    ensures var t := Step(s, Proceed(false), c);
            && t.update == NoUpdate && t.active != [] && t.active[0].stage == Leaving && Field(t) == Field(s)
            && t.handled == s.handled && t.arrivals == s.arrivals && t.p.state == s.p.state && t.p.setup == s.p.setup
  {
  }

  lemma Frees(s: System, c: Config) returns (events: seq<Event>)
    requires Inv(s) && s.update == NoUpdate && !IsEntering(s)
    ensures NoSetup(events) && Freed(s, Run(s, events, c))
  {
    hide Inv, Step, Run, Field;
    OneActive(s);
    if s.active == [] {
      events := [];
      RunNothing(s, c);
    } else if s.active[0].stage == Leaving {
      events := Releases(s, c);
    } else {
      Finishes(s, c);
      var rest := Releases(Step(s, Proceed(false), c), c);
      events := [Proceed(false)] + rest;
      RunCons(s, Proceed(false), rest, c);
    }
  }

  lemma OneActive(s: System)
    requires Inv(s)
    ensures |s.active| <= 1
  {
  }

  lemma Claims(s: System, c: Config)
    requires Inv(s) && s.update == NoUpdate && s.active == [] && Field(s) != {}
    ensures var t := Step(s, Claim, c);
            && Inv(t) && IsEntering(t) && t.active[0].kind == Field(s) && t.update == NoUpdate
            && t.handled == s.handled && t.arrivals == s.arrivals && t.p.state == s.p.state && t.p.setup == s.p.setup
  {
    hide Merged, LastDispatch, Sound, SoundHandled;
    StepKeeps(s, Claim, c);
    ClaimBits(s.p);
  }

  /** Exactly one more request has come before the stack, with these bits, and the handler has been entered. */
  ghost predicate Served(s: System, t: System, claimed: Word) {
    && Inv(t) && t.update == NoUpdate && !IsEntering(t) && t.arrivals == s.arrivals
    && |t.handled| == |s.handled| + 1 && s.handled <= t.handled
    && t.handled[|s.handled|].claimed == claimed && t.handled[|s.handled|].number == |s.arrivals|
    && (claimed == SETUP_OUT ==> t.p.state == s.p.state)
  }

  /** What is posted can be served. */
  lemma ServesField(s: System, c: Config) returns (events: seq<Event>)
    requires Inv(s) && s.update == NoUpdate && !IsEntering(s) && Field(s) != {}
    ensures NoSetup(events) && Served(s, Run(s, events, c), Field(s))
  {
    hide Inv, Step, Run, Field;
    var first := Frees(s, c);
    var t := Run(s, first, c);
    Claims(t, c);
    Enters(Step(t, Claim, c), c);
    RunTwo(t, Claim, Proceed(false), c);
    RunSplit(s, first, [Claim, Proceed(false)], c);
    events := first + [Claim, Proceed(false)];
  }

  /** An open data stage can complete: the device stack may set the length, and the host may send the rest. */
  lemma DataCompletes(s: System, c: Config) returns (events: seq<Event>)
    requires Inv(s) && s.update == NoUpdate && s.p.state == DataRx
    ensures NoSetup(events)
    ensures var t := Run(s, events, c);
            && Inv(t) && t.update == NoUpdate && Field(t) == SETUP_OUT && t.active == s.active
            && t.handled == s.handled && t.arrivals == s.arrivals && t.p.state == DataRx
  {
    hide Run, Inv, Step, Field;
    var e := ArmIn(if s.p.actual <= s.p.requested then s.p.requested else s.p.actual, s.p.forceZlp);
    var d := PacketArrives(if s.p.actual <= s.p.requested then s.p.requested - s.p.actual else 0);
    events := [e, d];
    RunTwo(s, e, d, c);
    StepKeeps(s, e, c);
    var t := Step(s, e, c);
    StepKeeps(t, d, c);
    Arms(s, e.length, e.forceZlp, c);
    DataArrives(t, d.count, c);
  }

  lemma Arms(s: System, length: nat, forceZlp: bool, c: Config)
    requires s.update == NoUpdate
    ensures var t := Step(s, ArmIn(length, forceZlp), c);
            && t.update == NoUpdate && t.active == s.active && t.handled == s.handled && t.arrivals == s.arrivals
            && t.p.state == s.p.state && t.p.actual == s.p.actual && t.p.requested == length
  {
  }

  lemma DataArrives(s: System, count: nat, c: Config)
    requires s.p.state == DataRx && s.p.actual + count == s.p.requested && s.update == NoUpdate
    ensures var t := Step(s, PacketArrives(count), c);
            && t.update == NoUpdate && Field(t) == SETUP_OUT && t.active == s.active
            && t.handled == s.handled && t.arrivals == s.arrivals && t.p.state == DataRx
  {
    hide DataOutStage;
    DataPosts(s.p, count, c);
    assert s.p.status * SETUP + SETUP_OUT == SETUP_OUT;
  }

  /** Something has come before the stack with these bits. */
  ghost predicate Reached(s: System, t: System, claimed: Word) {
    && t.arrivals == s.arrivals && s.handled <= t.handled
    && exists i :: |s.handled| <= i < |t.handled| && t.handled[i].claimed == claimed && t.handled[i].number == |s.arrivals|
  }

  lemma ReachesEntering(s: System, c: Config) returns (events: seq<Event>)
    requires Inv(s) && IsEntering(s)
    ensures NoSetup(events) && Reached(s, Run(s, events, c), s.active[0].kind)
    ensures var t := Run(s, events, c);
            && Inv(t) && t.update == NoUpdate && !IsEntering(t) && Field(t) == Field(s)
            && |t.handled| == |s.handled| + 1
  {
    hide Inv, Step, Run, Field;
    OneActive(s);
    Settles(s, c);
    var v := Step(s, Store, c);
    Enters(v, c);
    RunTwo(s, Store, Proceed(false), c);
    events := [Store, Proceed(false)];
    assert Run(s, events, c).handled[|s.handled|].claimed == s.active[0].kind;
  }

  lemma ReachesField(s: System, c: Config) returns (events: seq<Event>)
    requires Inv(s) && Field(s) != {}
    ensures NoSetup(events) && Reached(s, Run(s, events, c), Field(s))
    ensures IsEntering(s) ==> |Run(s, events, c).handled| == |s.handled| + 2
  {
    hide Inv, Step, Run, Field;
    var first: seq<Event>;
    if IsEntering(s) {
      first := ReachesEntering(s, c);
    } else {
      first := [Store];
      Settles(s, c);
      RunCons(s, Store, [], c);
      RunNothing(Step(s, Store, c), c);
      assert [Store] + [] == [Store];
    }
    var t := Run(s, first, c);
    var rest := ServesField(t, c);
    RunSplit(s, first, rest, c);
    events := first + rest;
    var u := Run(s, events, c);
    assert u.handled[|t.handled|].claimed == Field(s);
  }

  lemma ReachesData(s: System, c: Config) returns (events: seq<Event>)
    requires Inv(s) && s.p.state == DataRx
    ensures NoSetup(events) && Reached(s, Run(s, events, c), SETUP_OUT)
    ensures |Run(s, events, c).handled| >= |s.handled| + 2
  {
    hide Inv, Step, Run, Field;
    KindsDiffer();
    Settles(s, c);
    var v := Step(s, Store, c);
    var first := DataCompletes(v, c);
    var t := Run(v, first, c);
    RunCons(s, Store, first, c);
    var rest: seq<Event>;
    if IsEntering(t) {
      rest := ReachesField(t, c);
    } else {
      rest := ServesTwice(t, c);
    }
    RunSplit(s, [Store] + first, rest, c);
    events := [Store] + first + rest;
    var u := Run(s, events, c);
    var i :| |t.handled| <= i < |u.handled| && u.handled[i].claimed == SETUP_OUT && u.handled[i].number == |s.arrivals|;
  }

  /** After the write has been served its data stage is still open. */
  lemma ServesTwice(t: System, c: Config) returns (events: seq<Event>)
    requires Inv(t) && t.update == NoUpdate && !IsEntering(t) && t.p.state == DataRx && Field(t) == SETUP_OUT
    ensures NoSetup(events) && Reached(t, Run(t, events, c), SETUP_OUT)
    ensures |Run(t, events, c).handled| == |t.handled| + 2
  {
    hide Inv, Step, Run, Field;
    KindsDiffer();
    var a := ServesField(t, c);
    var u := Run(t, a, c);
    var b := DataCompletes(u, c);
    var v := Run(u, b, c);
    var d := ServesField(v, c);
    RunSplit(t, a, b, c);
    RunSplit(t, a + b, d, c);
    events := a + b + d;
    var w := Run(t, events, c);
    assert w.handled[|t.handled|].claimed == SETUP_OUT && w.handled[|t.handled|].number == |t.arrivals|;
  }

  // ----- when the same request is served twice

  /** All that a step without a new packet can do to what is served: claim the field, enter the handler of the claim,
      drop the field, or, while a data stage is open, post its completion. */
  predicate Moves(s: System, t: System) {
    && t.arrivals == s.arrivals && t.p.setup == s.p.setup && (t.p.state == DataRx ==> s.p.state == DataRx)
    && (ClaimsField(s, t) || EntersHandler(s, t) || MayPost(s, t))
  }

  predicate ClaimsField(s: System, t: System) {
    && !IsEntering(s) && IsEntering(t) && t.active[|t.active| - 1].kind == Field(s) && Field(s) != {} && Field(t) == {}
    && t.handled == s.handled
  }

  predicate EntersHandler(s: System, t: System) {
    && IsEntering(s) && !IsEntering(t) && Field(t) == Field(s) && |t.handled| == |s.handled| + 1 && s.handled <= t.handled
    && t.handled[|s.handled|].claimed == s.active[|s.active| - 1].kind && t.handled[|s.handled|].setup == s.p.setup
  }

  predicate MayPost(s: System, t: System) {
    && t.handled == s.handled && IsEntering(t) == IsEntering(s)
    && (IsEntering(s) ==> t.active[|t.active| - 1].kind == s.active[|s.active| - 1].kind)
    && (Field(t) == Field(s) || Field(t) == {} || (s.p.state == DataRx && Field(t) == Field(s) + SETUP_OUT))
  }

  lemma ClaimMoves(s: System)
    requires Inv(s) && s.update == NoUpdate
    ensures Moves(s, ClaimStep(s))
  {
    hide PostsInv, HandledInv, LastDispatch, Sound, ClaimSetup;
    ClaimBits(s.p);
  }

  lemma ProceedMoves(s: System, ok: bool)
    requires s.update == NoUpdate && |s.active| <= 1
    ensures Moves(s, ProceedStep(s, ok))
  {
  }

  lemma TaskMoves(s: System, e: Event)
    requires Inv(s) && s.update == NoUpdate
    ensures Moves(s, TaskStep(s, e))
  {
    hide Inv, TransferRun, ClaimStep, ProceedStep;
    OneActive(s);
    match e
    case Claim => ClaimMoves(s);
    case Proceed(ok) => ProceedMoves(s, ok);
    case Poll(busReset, dataOutPhase) => PollClears(s.p, busReset, dataOutPhase);
    case Reset => ResetClears(s.p);
    case _ =>
  }

  lemma DataMoves(s: System, count: nat, c: Config)
    ensures Moves(s, Post(s, DataOutStage(s.p, count, c), PostedByData(s.p, count, c)))
  {
    hide DataOutStage;
    DataPosts(s.p, count, c);
  }

  lemma StoreMoves(s: System)
    requires Inv(s)
    ensures Moves(s, StoreStep(s))
  {
    hide Inv, StoreStep, Field;
    StoreSettles(s);
    StoreKeepsSetup(s);
  }

  lemma StoreKeepsSetup(s: System)
    ensures StoreStep(s).p.setup == s.p.setup
  {
  }

  lemma StepMoves(s: System, e: Event, c: Config)
    requires Inv(s) && !e.SetupArrives?
    ensures Moves(s, Step(s, e, c))
  {
    hide Inv, TaskStep, DataInStage, DataOutStage, StoreStep, PostedByData;
    match e
    case PacketSent => SentKeepsBits(s.p, c);
    case PacketArrives(count) => DataMoves(s, count, c);
    case Store => StoreMoves(s);
    case _ => if s.update == NoUpdate { TaskMoves(s, e); }
  }

  /** A dispatch under way, a post, or a data stage that may complete. */
  predicate AtRisk(s: System) {
    IsEntering(s) || Field(s) != {} || s.p.state == DataRx
  }

  lemma SafeMoves(s: System, t: System)
    requires !AtRisk(s) && Moves(s, t)
    ensures !AtRisk(t) && t.handled == s.handled
  {
    hide Field;
  }

  lemma {:induction false} SafeRun(s: System, events: seq<Event>, c: Config)
    requires Inv(s) && !AtRisk(s) && NoSetup(events)
    ensures Run(s, events, c).handled == s.handled
    decreases |events|
  {
    hide Inv, AtRisk, Moves, Step;
    if events != [] {
      StepMoves(s, events[0], c);
      SafeMoves(s, Step(s, events[0], c));
      StepKeeps(s, events[0], c);
      SafeRun(Step(s, events[0], c), events[1..], c);
    }
  }

  /** The latest packet has come before the stack. */
  ghost predicate ServesLatest(s: System, t: System) {
    t.arrivals == s.arrivals && exists i :: |s.handled| <= i < |t.handled| && t.handled[i].number == |s.arrivals|
  }

  /** From any moment on, some run without a new packet puts the latest packet before the device stack (again, if it
      has been there) exactly when a dispatch is about to enter its handler, a post is pending that no update under
      way will overwrite, or a data stage is open. */
  lemma ServedAgainIff(s: System, c: Config)
    requires Inv(s)
    ensures (exists events: seq<Event> :: NoSetup(events) && ServesLatest(s, Run(s, events, c))) <==> AtRisk(s)
  {
    hide Run, Inv, Field;
    if AtRisk(s) {
      var events: seq<Event>;
      if IsEntering(s) {
        events := ReachesEntering(s, c);
      } else if Field(s) != {} {
        events := ReachesField(s, c);
      } else {
        events := ReachesData(s, c);
      }
      assert NoSetup(events) && ServesLatest(s, Run(s, events, c));
    } else {
      forall events: seq<Event> | NoSetup(events) ensures !ServesLatest(s, Run(s, events, c)) {
        SafeRun(s, events, c);
      }
    }
  }

  /** At most one more request can come: a dispatch about to enter, or a post. */
  predicate OneAtMost(s: System, before: nat) {
    && s.p.state != DataRx && before <= |s.handled|
    && |s.handled| - before + (if IsEntering(s) then 1 else 0) + (if Field(s) != {} then 1 else 0) <= 1
  }

  lemma OneAtMostMoves(s: System, t: System, before: nat)
    requires OneAtMost(s, before) && Moves(s, t)
    ensures OneAtMost(t, before)
  {
    hide Field;
  }

  lemma {:induction false} OneAtMostRun(s: System, events: seq<Event>, before: nat, c: Config)
    requires Inv(s) && OneAtMost(s, before) && NoSetup(events)
    ensures OneAtMost(Run(s, events, c), before)
    decreases |events|
  {
    hide Inv, OneAtMost, Moves, Step;
    if events != [] {
      StepKeeps(s, events[0], c);
      StepMoves(s, events[0], c);
      OneAtMostMoves(s, Step(s, events[0], c), before);
      OneAtMostRun(Step(s, events[0], c), events[1..], before, c);
    }
  }

  /** From any moment on, every run without a new packet puts at most one request before the stack exactly when no data
      stage is open, and not both a dispatch is about to enter its handler and a post is pending. */
  lemma ServedOnceIff(s: System, c: Config)
    requires Inv(s)
    ensures (forall events: seq<Event> :: NoSetup(events) ==> |Run(s, events, c).handled| <= |s.handled| + 1)
            <==> s.p.state != DataRx && !(IsEntering(s) && Field(s) != {})
  {
    hide Run, Inv, Field;
    if s.p.state == DataRx {
      var events := ReachesData(s, c);
      assert NoSetup(events);
    } else if IsEntering(s) && Field(s) != {} {
      var events := ReachesField(s, c);
      assert NoSetup(events);
    } else {
      forall events: seq<Event> | NoSetup(events) ensures |Run(s, events, c).handled| <= |s.handled| + 1 {
        OneAtMostRun(s, events, |s.handled|, c);
      }
    }
  }

  // ----- when a request is served as what it is

  /** Everything that can come before the stack has these bits. */
  predicate OnlyAs(s: System, own: Word) {
    && (IsEntering(s) ==> s.active[|s.active| - 1].kind == own)
    && (Field(s) == {} || Field(s) == own)
    && (s.p.state == DataRx ==> own == SETUP_OUT)
  }

  /** The packet is the latest, and has been served with these bits only. */
  predicate ServedAs(s: System, before: nat, packet: seq<byte>, own: Word) {
    && s.arrivals != [] && s.arrivals[|s.arrivals| - 1] == packet && before <= |s.handled|
    && forall i :: before <= i < |s.handled| ==> s.handled[i].setup == packet && s.handled[i].claimed == own
  }

  lemma OnlyAsMoves(s: System, t: System, before: nat, packet: seq<byte>, own: Word)
    requires OnlyAs(s, own) && ServedAs(s, before, packet, own) && Moves(s, t) && s.p.setup == packet
    ensures OnlyAs(t, own) && ServedAs(t, before, packet, own)
  {
    hide Field;
    assert {} + SETUP_OUT == SETUP_OUT && SETUP_OUT + SETUP_OUT == SETUP_OUT;
  }

  lemma {:induction false} OnlyAsRun(s: System, events: seq<Event>, before: nat, packet: seq<byte>, own: Word, c: Config)
    requires Inv(s) && OnlyAs(s, own) && ServedAs(s, before, packet, own) && IsKind(own) && NoSetup(events)
    ensures ServedAs(Run(s, events, c), before, packet, own)
    decreases |events|
  {
    hide Inv, OnlyAs, Moves, Step;
    if events != [] {
      StepKeeps(s, events[0], c);
      StepMoves(s, events[0], c);
      LatestIsSetup(s);
      OnlyAsMoves(s, Step(s, events[0], c), before, packet, own);
      OnlyAsRun(Step(s, events[0], c), events[1..], before, packet, own, c);
    }
  }

  lemma LatestIsSetup(s: System)
    requires Inv(s) && s.arrivals != []
    ensures s.p.setup == s.arrivals[|s.arrivals| - 1]
  {
  }

  /** If something else can come, some run lets it. */
  lemma ServedOtherwise(s: System, own: Word, c: Config) returns (events: seq<Event>)
    requires Inv(s) && !OnlyAs(s, own)
    ensures NoSetup(events)
    ensures var t := Run(s, events, c); exists i :: |s.handled| <= i < |t.handled| && t.handled[i].claimed != own
  {
    hide Run, Inv, Field;
    OneActive(s);
    if IsEntering(s) && s.active[0].kind != own {
      events := ReachesEntering(s, c);
    } else if Field(s) != {} && Field(s) != own {
      events := ReachesField(s, c);
    } else {
      events := ReachesData(s, c);
    }
  }

  /** The packet is the latest, and has been served by the handler of its own kind only. */
  predicate ServedByOwnHandler(s: System, before: nat, packet: seq<byte>)
    requires IsSetupPacket(packet)
  {
    && s.arrivals != [] && s.arrivals[|s.arrivals| - 1] == packet && before <= |s.handled|
    && forall i :: before <= i < |s.handled| ==>
         s.handled[i].setup == packet && HandlerOf(s.handled[i].claimed) == HandlerOf(OwnKind(packet))
  }

  /** Among kinds, the handler tells the bits. */
  lemma HandlersAreKinds(s: System, i: nat, own: Word)
    requires Inv(s) && i < |s.handled| && IsKind(own)
    ensures HandlerOf(s.handled[i].claimed) == HandlerOf(own) <==> s.handled[i].claimed == own
  {
    hide Merged, LastDispatch, Sound;
    KindsDiffer();
    MergedCases(s.handled[i].posted);
  }

  /** From the moment a SETUP packet arrives until the next one, in all runs, whatever comes before the device stack is
      that request, through its own handler, exactly when at that moment a dispatch about to enter has claimed its kind,
      the SETUP field holds its kind or nothing, and no data stage is open unless it is a write. */
  lemma ServedAsItselfIff(s: System, packet: seq<byte>, c: Config)
    requires Inv(s) && IsSetupPacket(packet)
    ensures var u := Step(s, SetupArrives(packet), c);
            (forall events: seq<Event> :: NoSetup(events) ==> ServedByOwnHandler(Run(u, events, c), |u.handled|, packet))
            <==> OnlyAs(u, OwnKind(packet))
  {
    hide Run, Inv, Field, SetupStage, HandlerOf;
    var u, own := Step(s, SetupArrives(packet), c), OwnKind(packet);
    StepKeeps(s, SetupArrives(packet), c);
    assert ServedAs(u, |u.handled|, packet, own);
    if OnlyAs(u, own) {
      forall events: seq<Event> | NoSetup(events) ensures ServedByOwnHandler(Run(u, events, c), |u.handled|, packet) {
        OnlyAsRun(u, events, |u.handled|, packet, own, c);
      }
    } else {
      var events := ServedOtherwise(u, own, c);
      var t := Run(u, events, c);
      RunKeeps(u, events, c);
      var i :| |u.handled| <= i < |t.handled| && t.handled[i].claimed != own;
      HandlersAreKinds(t, i, own);
      assert NoSetup(events) && !ServedByOwnHandler(t, |u.handled|, packet);
    }
  }

  // ----- oversized writes

  /** Whenever a request arrives at a free dispatcher, the next claim finds the endpoint stalled exactly when the request
      is a write that does not fit. It is dispatched all the same, together with what was pending, and unless reads
      or writes were pending too it enters the handler of requests without data. */
  lemma OversizedIsStalledAndDispatchedIff(s: System, packet: seq<byte>, c: Config)
    requires Inv(s) && s.update == NoUpdate && s.active == [] && IsSetupPacket(packet)
    ensures var t := Run(s, [SetupArrives(packet), Claim], c);
            t.active != [] && Stalled in t.p.status <==> Oversized(packet, c)
    ensures Oversized(packet, c) ==>
              var posted, u := s.pending + [SETUP_STATUS], Run(s, [SetupArrives(packet), Claim, Proceed(true)], c);
              && u.handled == s.handled + [Handled(Merged(posted), posted, packet, |s.arrivals| + 1)]
              && Stalled in u.p.status && OwnKind(packet) == SETUP_OUT
              && (HandlerOf(Merged(posted)) == HandleStatus <==>
                    forall i :: 0 <= i < |s.pending| ==> s.pending[i] == SETUP_STATUS)
  {
    hide Run, Inv, SetupStage, Merged, LastDispatch, Sound, DataLength, PostedBySetup;
    ArrivesFree(s, packet, c);
    var a := Step(s, SetupArrives(packet), c);
    RunTwo(s, SetupArrives(packet), Claim, c);
    RunThree(s, SetupArrives(packet), Claim, Proceed(true), c);
    StepKeeps(s, SetupArrives(packet), c);
    ClaimServes(a, c);
    if Oversized(packet, c) { MergedWithStatus(s); }
  }

  /** The field after the packet has come, and the stall. */
  lemma ArrivesFree(s: System, packet: seq<byte>, c: Config)
    requires Inv(s) && s.update == NoUpdate && s.active == [] && IsSetupPacket(packet)
    ensures var a := Step(s, SetupArrives(packet), c);
            && a.update == NoUpdate && a.active == [] && a.handled == s.handled && |a.arrivals| == |s.arrivals| + 1
            && a.p.setup == packet && a.pending == s.pending + AsPost(PostedBySetup(packet, c))
            && (Stalled in a.p.status <==> Oversized(packet, c))
    ensures Oversized(packet, c) ==> PostedBySetup(packet, c) == SETUP_STATUS != {} && OwnKind(packet) == SETUP_OUT
  {
    hide SetupStage, Merged, LastDispatch, Sound;
    SetupPosts(s.p, packet, c);
    KindsDiffer();
  }

  /** The next claim takes all that is pending. */
  lemma ClaimServes(a: System, c: Config)
    requires Inv(a) && a.update == NoUpdate && a.active == []
    ensures var t := Step(a, Claim, c);
            && (a.pending != [] ==> t.active != [])
            && (Stalled in t.p.status <==> Stalled in a.p.status)
    ensures a.pending != [] ==>
              var u := Step(Step(a, Claim, c), Proceed(true), c);
              u.handled == a.handled + [Handled(Merged(a.pending), a.pending, a.p.setup, |a.arrivals|)]
              && (Stalled in u.p.status <==> Stalled in a.p.status)
  {
    hide Merged, LastDispatch, Sound, SoundHandled;
    ClaimBits(a.p);
    ClaimKeepsStall(a.p);
    if a.pending != [] { PendingIsSet(a); }
  }

  lemma MergedWithStatus(s: System)
    requires Inv(s)
    ensures HandlerOf(Merged(s.pending + [SETUP_STATUS])) == HandleStatus
       <==> forall i :: 0 <= i < |s.pending| ==> s.pending[i] == SETUP_STATUS
  {
    hide Merged, LastDispatch, Sound, SoundHandled;
    var posted := s.pending + [SETUP_STATUS];
    KindsDiffer();
    MergedCases(posted);
    assert forall i :: 0 <= i < |s.pending| ==> posted[i] == s.pending[i];
  }

  lemma ClaimKeepsStall(p: Pipe)
    ensures Stalled in ClaimSetup(p).0.status <==> Stalled in p.status
  {
  }

  // ----- the status stage

  function EmptyPackets(calls: seq<HalCall>): nat
    decreases |calls|
  {
    if calls == [] then 0 else
      EmptyPackets(calls[..|calls| - 1]) + if calls[|calls| - 1] == TransmitEmpty then 1 else 0
  }

  lemma OneMoreCall(calls: seq<HalCall>, call: HalCall)
    ensures EmptyPackets(calls + [call]) == EmptyPackets(calls) + if call == TransmitEmpty then 1 else 0
  {
    assert (calls + [call])[..|calls|] == calls;
  }

  /** The status packet is under way and nothing else is. */
  predicate Settled(s: System) {
    s.pending == [] && s.p.state != DataTx && s.p.state != DataRx && (s.active != [] ==> s.active[0].stage == Leaving)
  }

  lemma SettledStore(s: System)
    requires Inv(s) && Settled(s)
    ensures Settled(StoreStep(s)) && EmptyPackets(StoreStep(s).p.calls) == EmptyPackets(s.p.calls)
  {
    hide Merged, LastDispatch, Sound, SoundHandled, EmptyPackets;
    OneMoreCall(s.p.calls, SetStall(s.p.inward));
  }

  lemma SettledPoll(s: System, busReset: bool, dataOutPhase: bool)
    requires Settled(s)
    ensures var q := TransferRun(s.p, busReset, dataOutPhase).0;
            q.state == s.p.state && EmptyPackets(q.calls) == EmptyPackets(s.p.calls)
  {
    hide EmptyPackets;
    OneMoreCall(s.p.calls, Transmit(0, s.p.requested));
    OneMoreCall(s.p.calls, Receive(0, s.p.requested));
  }

  lemma SettledStep(s: System, e: Event, c: Config)
    requires Inv(s) && Settled(s) && !e.SetupArrives?
    ensures Settled(Step(s, e, c)) && EmptyPackets(Step(s, e, c).p.calls) == EmptyPackets(s.p.calls)
  {
    hide Merged, LastDispatch, Sound, SoundHandled, EmptyPackets, StoreStep, TransferRun;
    OneMoreCall(s.p.calls, ClearStall);
    NothingMerged();
    match e
    case Claim => ClaimBits(s.p);
    case Store => SettledStore(s);
    case Poll(busReset, dataOutPhase) => SettledPoll(s, busReset, dataOutPhase);
    case _ =>
  }

  lemma {:induction false} SettledRun(s: System, events: seq<Event>, c: Config)
    requires Inv(s) && Settled(s) && NoSetup(events)
    ensures Settled(Run(s, events, c)) && EmptyPackets(Run(s, events, c).p.calls) == EmptyPackets(s.p.calls)
    decreases |events|
  {
    hide Inv, Settled, Step, EmptyPackets;
    if events != [] {
      StepKeeps(s, events[0], c);
      SettledStep(s, events[0], c);
      SettledRun(Step(s, events[0], c), events[1..], c);
    }
  }

  /** When the device stack accepts a request with no data left, then however the run goes on, until the next SETUP
      packet exactly one empty packet is sent, and nothing more comes before the stack. */
  lemma StatusStageOnce(s: System, events: seq<Event>, c: Config)
    requires Inv(s) && s.update == NoUpdate && s.pending == [] && s.active != [] && s.active[0].stage == Processing
    requires HandlerOf(s.active[0].kind) != HandleIn && NoSetup(events)
    ensures var t := Run(Step(s, Proceed(true), c), events, c);
            EmptyPackets(t.p.calls) == EmptyPackets(s.p.calls) + 1 && t.handled == s.handled
  {
    hide Run, Inv, Step, EmptyPackets, Settled;
    var t := Step(s, Proceed(true), c);
    Accepted(s, c);
    StepKeeps(s, Proceed(true), c);
    SettledRun(t, events, c);
    SettledIsSafe(t);
    SafeRun(t, events, c);
  }

  lemma Accepted(s: System, c: Config)
    requires Inv(s) && s.update == NoUpdate && s.pending == [] && s.active != [] && s.active[0].stage == Processing
    requires HandlerOf(s.active[0].kind) != HandleIn
    ensures var t := Step(s, Proceed(true), c);
            Settled(t) && t.handled == s.handled && EmptyPackets(t.p.calls) == EmptyPackets(s.p.calls) + 1
  {
    hide Merged, LastDispatch, Sound, SoundHandled, EmptyPackets;
    OneMoreCall(s.p.calls, TransmitEmpty);
  }

  lemma SettledIsSafe(s: System)
    requires Inv(s) && Settled(s)
    ensures !AtRisk(s)
  {
  }

  // ----- requests that are served as something else

  /** A read overtaken by a request without data is served as a write; one overtaken by a write that has posted
      nothing yet lets the write be served as a read, whose data packets are then ignored. */
  lemma OvertakenRequestIsMisread(s: System, read: seq<byte>, next: seq<byte>, c: Config)
    requires Quiet(s) && IsSetupPacket(read) && IsSetupPacket(next)
    requires OwnKind(read) == SETUP_IN && OwnKind(next) != SETUP_IN
    ensures var t := Run(s, [SetupArrives(read), SetupArrives(next), Claim], c);
            t.active == [if PostedBySetup(next, c) == {} then Activation(SETUP_IN, [SETUP_IN], Entering)
                         else Activation(SETUP_OUT, [SETUP_IN, SETUP_STATUS], Entering)]
    ensures PostedBySetup(next, c) == {} ==>
              var t := Step(Run(s, [SetupArrives(read), SetupArrives(next), Claim], c), Proceed(true), c);
              t.handled == [Handled(SETUP_IN, [SETUP_IN], next, 2)]
              && forall count :: DataOutStage(t.p, count, c) == t.p
  {
    hide Run, Step, SetupStage, Merged, LastDispatch, DataLength;
    RunThree(s, SetupArrives(read), SetupArrives(next), Claim, c);
    var t := TwoArrive(s, read, next, c);
    ReadIsClaimed(t, next, c);
  }

  lemma TwoArrive(s: System, read: seq<byte>, next: seq<byte>, c: Config) returns (t: System)
    requires Quiet(s) && IsSetupPacket(read) && IsSetupPacket(next)
    requires OwnKind(read) == SETUP_IN && OwnKind(next) != SETUP_IN
    ensures t == Step(Step(s, SetupArrives(read), c), SetupArrives(next), c)
    ensures t.pending == [SETUP_IN] + AsPost(PostedBySetup(next, c)) && t.p.setup == next && |t.arrivals| == 2
    ensures t.p.status * SETUP == (if PostedBySetup(next, c) == {} then SETUP_IN else SETUP_OUT)
    ensures TaskPending !in t.p.status && t.active == [] && t.handled == [] && t.update == NoUpdate
    ensures PostedBySetup(next, c) == {} || PostedBySetup(next, c) == SETUP_STATUS
  {
    hide SetupStage, Merged, LastDispatch, DataLength;
    KindsDiffer();
    SetupPosts(s.p, read, c);
    var s1 := Step(s, SetupArrives(read), c);
    SetupPosts(s1.p, next, c);
    t := Step(s1, SetupArrives(next), c);
    assert s.p.status * SETUP == {} && TaskPending !in s.p.status;
    assert SETUP_IN + SETUP_STATUS == SETUP_OUT;
    assert s1.p.status * SETUP == SETUP_IN && s1.pending == [SETUP_IN];
    assert t.p.status * SETUP == SETUP_IN + PostedBySetup(next, c);
  }

  lemma ReadIsClaimed(t: System, next: seq<byte>, c: Config)
    requires IsSetupPacket(next) && t.pending == [SETUP_IN] + AsPost(PostedBySetup(next, c))
    requires t.p.status * SETUP == (if PostedBySetup(next, c) == {} then SETUP_IN else SETUP_OUT)
    requires TaskPending !in t.p.status && t.active == [] && t.update == NoUpdate
    requires PostedBySetup(next, c) == {} || PostedBySetup(next, c) == SETUP_STATUS
    requires t.p.setup == next && |t.arrivals| == 2 && t.handled == []
    ensures var u := Step(t, Claim, c);
            u.active == [if PostedBySetup(next, c) == {} then Activation(SETUP_IN, [SETUP_IN], Entering)
                         else Activation(SETUP_OUT, [SETUP_IN, SETUP_STATUS], Entering)]
    ensures PostedBySetup(next, c) == {} ==>
              var v := Step(Step(t, Claim, c), Proceed(true), c);
              v.handled == [Handled(SETUP_IN, [SETUP_IN], next, 2)]
              && forall count :: DataOutStage(v.p, count, c) == v.p
  {
    hide ClaimSetup, PostedBySetup;
    KindsDiffer();
    ClaimBits(t.p);
    assert PostedBySetup(next, c) == {} ==> t.pending == [SETUP_IN];
    assert PostedBySetup(next, c) != {} ==> t.pending == [SETUP_IN, SETUP_STATUS];
  }

  /** A read that arrives between the claim of another request and its handler goes before the stack twice. */
  lemma LateRequestIsServedTwice(s: System, noData: seq<byte>, read: seq<byte>, c: Config)
    requires Quiet(s) && IsSetupPacket(noData) && IsSetupPacket(read)
    requires OwnKind(noData) == SETUP_STATUS && OwnKind(read) == SETUP_IN
    ensures var t := Run(s, [SetupArrives(noData), Claim, SetupArrives(read)], c);
            var u := Run(t, [Proceed(false), Proceed(false), Proceed(false), Store, Claim, Proceed(false)], c);
            u.handled == [Handled(SETUP_STATUS, [SETUP_STATUS], read, 2), Handled(SETUP_IN, [SETUP_IN], read, 2)]
  {
    hide Run, SetupStage, ClaimSetup, Merged, LastDispatch, DataLength;
    var t := LateArrival(s, noData, read, c);
    var u := Run(t, [Proceed(false), Proceed(false), Proceed(false)], c);
    RunThree(t, Proceed(false), Proceed(false), Proceed(false), c);
    RunSplit(t, [Proceed(false), Proceed(false), Proceed(false)], [Store, Claim, Proceed(false)], c);
    assert [Proceed(false), Proceed(false), Proceed(false)] + [Store, Claim, Proceed(false)]
        == [Proceed(false), Proceed(false), Proceed(false), Store, Claim, Proceed(false)];
    RunThree(u, Store, Claim, Proceed(false), c);
    KindsDiffer();
    ClaimBits(Step(u, Store, c).p);
  }

  lemma LateArrival(s: System, noData: seq<byte>, read: seq<byte>, c: Config) returns (t: System)
    requires Quiet(s) && IsSetupPacket(noData) && IsSetupPacket(read)
    requires OwnKind(noData) == SETUP_STATUS && OwnKind(read) == SETUP_IN
    ensures t == Run(s, [SetupArrives(noData), Claim, SetupArrives(read)], c)
    ensures t.active == [Activation(SETUP_STATUS, [SETUP_STATUS], Entering)] && t.pending == [SETUP_IN]
    ensures t.update == NoUpdate && t.handled == [] && |t.arrivals| == 2 && t.p.setup == read
    ensures t.p.status * SETUP == SETUP_IN && TaskPending in t.p.status
  {
    hide Run, SetupStage, ClaimSetup, Merged, LastDispatch, DataLength;
    RunThree(s, SetupArrives(noData), Claim, SetupArrives(read), c);
    KindsDiffer();
    SetupPosts(s.p, noData, c);
    var s1 := Step(s, SetupArrives(noData), c);
    assert s.p.status * SETUP == {} && TaskPending !in s.p.status;
    assert s1.p.status * SETUP == SETUP_STATUS && s1.pending == [SETUP_STATUS];
    ClaimBits(s1.p);
    var s2 := Step(s1, Claim, c);
    SetupPosts(s2.p, read, c);
    t := Step(s2, SetupArrives(read), c);
    assert t.p.status * SETUP == SETUP_IN;
  }
}
