/**
 Deferred dispatch of control requests: interrupts post into the two SETUP bits of the status word, the task
 claims them. Interrupts, the task, and calls the device stack makes from inside the dispatcher interleave freely.
 The two updates of the status word that the driver makes outside a critical section are a load and a store.
 */
module UsbSetupDispatch {
  import opened Bytes
  import opened UsbStatus
  import opened UsbDriver

  datatype Stage = Entering | Processing | Leaving

  /** One activation of the dispatcher: what it claimed, and the posts that had been merged into it. */
  datatype Activation = Activation(kind: Word, posted: seq<Word>, stage: Stage)

  /** The posts between two clearings of the SETUP bits, and how they ended. */
  datatype Window = Dispatched(kinds: seq<Word>, claimed: Word) | Dropped(kinds: seq<Word>)

  /** A request put before the device stack: the claim that led to it, the SETUP packet the stack found,
      and how many SETUP packets had arrived by then. */
  datatype Handled = Handled(claimed: Word, posted: seq<Word>, setup: seq<byte>, number: nat)

  /** A task between the load and the store of an unprotected update; `mark` posts were pending at the load. */
  datatype Update = NoUpdate | Stalling(loaded: Word, mark: nat) | Releasing(loaded: Word, mark: nat)

  /** `active` is the stack of dispatcher activations, `pending` what was posted since the bits were last cleared,
      `lost` what an unprotected update has overwritten. */
  datatype System = System(
    p: Pipe, active: seq<Activation>, update: Update, pending: seq<Word>, closed: seq<Window>, lost: seq<Word>,
    arrivals: seq<seq<byte>>, handled: seq<Handled>)

  datatype Event =
    // interrupts
    | SetupArrives(packet: seq<byte>)
    | PacketSent
    | PacketArrives(count: nat)
    // the task, and the device stack in it
    | Claim                                   // _ux_dcd_stm32_setup_isr_pending, from wherever it is called
    | Proceed(ok: bool)                       // the innermost activation goes on
    | Poll(busReset: bool, dataOutPhase: bool)
    | Stall                                   // the load of _ux_dcd_stm32_endpoint_stall
    | Reset
    | ArmIn(length: nat, forceZlp: bool)      // the device stack sets up a control-IN transfer
    | Store                                   // the store of the update under way

  // ----- what each event posts

  /** The kind a SETUP packet posts. A request with data to come posts nothing yet; an oversized one is posted
      like a request without data. */
  function PostedBySetup(packet: seq<byte>, c: Config): Word
    requires IsSetupPacket(packet)
  {
    if packet[0] >= REQUEST_IN then SETUP_IN
    else if DataLength(packet) == 0 || Oversized(packet, c) then SETUP_STATUS
    else {}
  }

  /** A write with more data than the control buffer holds. */
  predicate Oversized(packet: seq<byte>, c: Config)
    requires IsSetupPacket(packet)
  {
    packet[0] < REQUEST_IN && DataLength(packet) > c.maxLength
  }

  /** A completed data stage is posted. */
  function PostedByData(p: Pipe, count: nat, c: Config): Word {
    if p.state == DataRx && p.actual + count <= p.requested
       && (p.actual + count == p.requested || count != c.maxPacket)
    then SETUP_OUT else {}
  }

  function PostedBy(s: System, e: Event, c: Config): Word {
    match e
    case SetupArrives(packet) => if IsSetupPacket(packet) then PostedBySetup(packet, c) else {}
    case PacketArrives(count) => PostedByData(s.p, count, c)
    case _ => {}
  }

  /** A post as a sequence. */
  function AsPost(kind: Word): seq<Word> { if kind == {} then [] else [kind] }

  // ----- steps

  function Post(s: System, q: Pipe, kind: Word): System {
    s.(p := q, pending := s.pending + AsPost(kind))
  }

  function ArriveStep(s: System, packet: seq<byte>, c: Config): System {
    if IsSetupPacket(packet)
    then Post(s, SetupStage(s.p, packet, c), PostedBySetup(packet, c)).(arrivals := s.arrivals + [packet])
    else s
  }

  /** After a statement that may clear the SETUP bits without dispatching. */
  function MayDrop(s: System, q: Pipe): System {
    if q.status * SETUP == {} && s.pending != []
    then s.(p := q, pending := [], closed := s.closed + [Dropped(s.pending)])
    else s.(p := q)
  }

  function ClaimStep(s: System): System {
    var (q, kind) := ClaimSetup(s.p);
    if kind == {} then s.(p := q)
    else s.(p := q, active := s.active + [Activation(kind, s.pending, Entering)], pending := [],
            closed := s.closed + [Dispatched(s.pending, kind)])
  }

  /** Entering the handler puts the SETUP packet now in the request before the device stack. */
  function ProceedStep(s: System, ok: bool): System {
    if s.active == [] then s else
    var n := |s.active| - 1;
    var a := s.active[n];
    match a.stage
    case Entering =>
      s.(p := BeforeProcess(s.p, a.kind), active := s.active[n := a.(stage := Processing)],
         handled := s.handled + [Handled(a.kind, a.posted, s.p.setup, |s.arrivals|)])
    case Processing => s.(p := AfterProcess(s.p, a.kind, ok), active := s.active[n := a.(stage := Leaving)])
    case Leaving => s.(update := Releasing(s.p.status, |s.pending|))
  }

  /** The store of an unprotected update writes back the bits of its load. */
  function StoreStep(s: System): System {
    match s.update
    case NoUpdate => s
    case Stalling(loaded, mark) => Settle(s.(update := NoUpdate), StoreStall(s.p, loaded), loaded, mark)
    case Releasing(loaded, mark) =>
      var t := s.(update := NoUpdate, active := if s.active == [] then [] else s.active[..|s.active| - 1]);
      Settle(t, StoreRelease(s.p, loaded), loaded, mark)
  }

  /** Posts that came after the load are lost when one of them had a bit of its own. */
  function Settle(s: System, q: Pipe, loaded: Word, mark: nat): System {
    if s.p.status * SETUP <= loaded * SETUP || mark > |s.pending| then s.(p := q)
    else s.(p := q, pending := s.pending[..mark], lost := s.lost + s.pending[mark..])
  }

  /** While a task is between load and store only interrupts run beside it. */
  function Step(s: System, e: Event, c: Config): System {
    match e
    case SetupArrives(packet) => ArriveStep(s, packet, c)
    case PacketSent => s.(p := DataInStage(s.p, c))
    case PacketArrives(count) => Post(s, DataOutStage(s.p, count, c), PostedByData(s.p, count, c))
    case Store => StoreStep(s)
    case _ => if s.update == NoUpdate then TaskStep(s, e) else s
  }

  function TaskStep(s: System, e: Event): System {
    match e
    case Claim => ClaimStep(s)
    case Proceed(ok) => ProceedStep(s, ok)
    case Poll(busReset, dataOutPhase) => MayDrop(s, TransferRun(s.p, busReset, dataOutPhase).0)
    case Stall => s.(update := Stalling(s.p.status, |s.pending|))
    case Reset => MayDrop(s, EndpointReset(s.p))
    case ArmIn(length, forceZlp) =>
      s.(p := s.p.(requested := length, inLength := length, current := 0, forceZlp := forceZlp))
    case _ => s
  }

  function Run(s: System, events: seq<Event>, c: Config): System
    decreases |events|
  {
    if events == [] then s else Run(Step(s, events[0], c), events[1..], c)
  }

  /** Everything posted over a run, in order. */
  function Posts(s: System, events: seq<Event>, c: Config): seq<Word>
    decreases |events|
  {
    if events == [] then [] else
      AsPost(PostedBy(s, events[0], c)) + Posts(Step(s, events[0], c), events[1..], c)
  }

  // ----- the invariant

  predicate IsKind(kind: Word) { kind == SETUP_IN || kind == SETUP_STATUS || kind == SETUP_OUT }

  predicate AllKinds(kinds: seq<Word>) { forall i :: 0 <= i < |kinds| ==> IsKind(kinds[i]) }

  /** Posting ors kinds into the same two bits. */
  function Merged(kinds: seq<Word>): Word
    decreases |kinds|
  {
    if kinds == [] then {} else Merged(kinds[..|kinds| - 1]) + kinds[|kinds| - 1]
  }

  predicate Sound(w: Window) {
    w.kinds != [] && AllKinds(w.kinds) && (w.Dispatched? ==> w.claimed == Merged(w.kinds))
  }

  /** The latest dispatch. */
  function LastDispatch(ws: seq<Window>): Window
    decreases |ws|
  {
    if ws == [] then Dropped([])
    else if ws[|ws| - 1].Dispatched? then ws[|ws| - 1]
    else LastDispatch(ws[..|ws| - 1])
  }

  /** All posts in closed windows, in order. */
  function Closed(ws: seq<Window>): seq<Word>
    decreases |ws|
  {
    if ws == [] then [] else Closed(ws[..|ws| - 1]) + ws[|ws| - 1].kinds
  }

  /** The SETUP field is what is pending, and closed windows claimed what was posted in them. */
  predicate PostsInv(s: System) {
    && AllKinds(s.pending) && s.p.status * SETUP == Merged(s.pending)
    && forall i :: 0 <= i < |s.closed| ==> Sound(s.closed[i])
  }

  /** One activation at most, exactly while TASK_PENDING is set, working on the latest dispatch. */
  predicate ActiveInv(s: System) {
    && |s.active| <= 1 && (s.active != [] <==> TaskPending in s.p.status)
    && (s.active != [] ==>
          LastDispatch(s.closed) == Dispatched(s.active[0].posted, s.active[0].kind)
          && Sound(LastDispatch(s.closed)))
  }

  /** The word loaded by an update under way has the bits of the posts pending at the load. */
  predicate UpdateInv(s: System) {
    && (s.update != NoUpdate ==>
          s.update.mark <= |s.pending| && s.update.loaded * SETUP == Merged(s.pending[..s.update.mark])
          && (TaskPending in s.update.loaded <==> TaskPending in s.p.status))
    && (s.update.Releasing? ==> s.active != [] && s.active[0].stage == Leaving)
  }

  /** Whatever was handled had been posted, and the device stack found the latest SETUP packet. */
  predicate HandledInv(s: System) {
    && (forall i :: 0 <= i < |s.arrivals| ==> IsSetupPacket(s.arrivals[i]))
    && (s.arrivals != [] ==> s.p.setup == s.arrivals[|s.arrivals| - 1])
    && (s.pending != [] || s.active != [] || s.p.state == DataRx ==> s.arrivals != [])
    && forall i :: 0 <= i < |s.handled| ==> SoundHandled(s.handled[i], s.arrivals)
  }

  predicate SoundHandled(h: Handled, arrivals: seq<seq<byte>>) {
    && h.posted != [] && AllKinds(h.posted) && h.claimed == Merged(h.posted)
    && 0 < h.number <= |arrivals| && h.setup == arrivals[h.number - 1]
  }

  predicate Inv(s: System) {
    PostsInv(s) && ActiveInv(s) && UpdateInv(s) && HandledInv(s)
  }

  /** Nothing has happened yet: nothing is pending, active or being received. */
  ghost predicate Quiet(s: System) {
    && s.active == [] && s.update == NoUpdate && s.pending == [] && s.closed == [] && s.lost == []
    && s.arrivals == [] && s.handled == []
    && s.p.status * (SETUP + TASK_PENDING) == {} && s.p.state != DataRx
  }

  lemma QuietInv(s: System)
    requires Quiet(s)
    ensures Inv(s)
  {
    assert s.p.status * SETUP == (s.p.status * (SETUP + TASK_PENDING)) * SETUP;
    assert TaskPending in s.p.status ==> TaskPending in s.p.status * (SETUP + TASK_PENDING);
  }

  // ----- one step

  /** The statement keeps both the SETUP field and TASK_PENDING. */
  predicate SameBits(v: Word, w: Word) {
    v * SETUP == w * SETUP && (TaskPending in v <==> TaskPending in w)
  }

  lemma MergedMore(kinds: seq<Word>, kind: Word)
    ensures Merged(kinds + AsPost(kind)) == Merged(kinds) + kind
  {
    assert kinds + [] == kinds;
    assert (kinds + [kind])[..|kinds|] == kinds;
  }

  lemma ClosedMore(ws: seq<Window>, w: Window)
    ensures Closed(ws + [w]) == Closed(ws) + w.kinds
    ensures LastDispatch(ws + [w]) == if w.Dispatched? then w else LastDispatch(ws)
  {
    assert (ws + [w])[..|ws|] == ws;
  }

  lemma PostKeeps(s: System, q: Pipe, kind: Word)
    requires PostsInv(s) && ActiveInv(s) && UpdateInv(s) && (kind == {} || IsKind(kind))
    requires q.status * SETUP == s.p.status * SETUP + kind
    requires TaskPending in q.status <==> TaskPending in s.p.status
    ensures PostsInv(Post(s, q, kind)) && ActiveInv(Post(s, q, kind)) && UpdateInv(Post(s, q, kind))
  {
    hide Merged, Sound, LastDispatch;
    MergedMore(s.pending, kind);
    if s.update != NoUpdate {
      assert (s.pending + AsPost(kind))[..s.update.mark] == s.pending[..s.update.mark];
    }
  }

  lemma MayDropKeeps(s: System, q: Pipe)
    requires Inv(s) && s.update == NoUpdate && q.setup == s.p.setup && (q.state == DataRx ==> s.p.state == DataRx)
    requires q.status * SETUP == {} || q.status * SETUP == s.p.status * SETUP
    requires TaskPending in q.status <==> TaskPending in s.p.status
    ensures Inv(MayDrop(s, q))
    ensures Closed(MayDrop(s, q).closed) + MayDrop(s, q).pending == Closed(s.closed) + s.pending
  {
    hide Closed, LastDispatch;
    ClosedMore(s.closed, Dropped(s.pending));
    assert Closed(s.closed) + s.pending + [] == Closed(s.closed) + s.pending;
  }

  lemma ClaimKeeps(s: System)
    requires Inv(s) && s.update == NoUpdate
    ensures Inv(ClaimStep(s))
    ensures Closed(ClaimStep(s).closed) + ClaimStep(s).pending == Closed(s.closed) + s.pending
    ensures s.active != [] ==> ClaimStep(s) == s
  {
    hide Closed, LastDispatch;
    ClaimBits(s.p);
    ClosedMore(s.closed, Dispatched(s.pending, s.p.status * SETUP));
    assert Closed(s.closed) + s.pending + [] == Closed(s.closed) + s.pending;
  }

  lemma ClaimBits(p: Pipe)
    ensures p.status * TASK_PENDING != {} <==> TaskPending in p.status
    ensures var (q, kind) := ClaimSetup(p);
            if TaskPending in p.status || p.status * SETUP == {} then q == p && kind == {}
            else q == p.(status := q.status) && q.status * SETUP == {} && TaskPending in q.status
                 && kind == p.status * SETUP
  {
    assert TaskPending in p.status ==> TaskPending in p.status * TASK_PENDING;
  }

  /** What a SETUP packet does to the status word: it adds its post, and the endpoint is stalled afterwards
      exactly when the request is a write that does not fit, whether it was stalled before or not. */
  lemma SetupPosts(p: Pipe, packet: seq<byte>, c: Config)
    requires IsSetupPacket(packet)
    ensures var q := SetupStage(p, packet, c);
            && q.status * SETUP == p.status * SETUP + PostedBySetup(packet, c)
            && (TaskPending in q.status <==> TaskPending in p.status)
            && (Stalled in q.status <==> Oversized(packet, c))
            && q.setup == packet
  {
  }

  lemma DataPosts(p: Pipe, count: nat, c: Config)
    ensures var q := DataOutStage(p, count, c);
            && q.status * SETUP == p.status * SETUP + PostedByData(p, count, c)
            && (TaskPending in q.status <==> TaskPending in p.status)
            && q.setup == p.setup && q.state == p.state
  {
  }

  lemma SentKeepsBits(p: Pipe, c: Config)
    ensures SameBits(DataInStage(p, c).status, p.status)
    ensures DataInStage(p, c).setup == p.setup && (DataInStage(p, c).state == DataRx <==> p.state == DataRx)
  {
  }

  lemma PollClears(p: Pipe, busReset: bool, dataOutPhase: bool)
    ensures var q := TransferRun(p, busReset, dataOutPhase).0;
            && (q.status * SETUP == {} || q.status * SETUP == p.status * SETUP)
            && (TaskPending in q.status <==> TaskPending in p.status)
            && q.setup == p.setup && q.state == p.state
  {
  }

  lemma SendKeeps(s: System, c: Config)
    requires Inv(s)
    ensures Inv(s.(p := DataInStage(s.p, c)))
  {
    hide Merged, LastDispatch, Sound, SoundHandled, DataInStage;
    SentKeepsBits(s.p, c);
  }

  lemma ArriveKeeps(s: System, packet: seq<byte>, c: Config)
    requires Inv(s) && IsSetupPacket(packet)
    ensures Inv(ArriveStep(s, packet, c))
  {
    hide Merged, LastDispatch, SetupStage, PostsInv, ActiveInv, UpdateInv;
    SetupPosts(s.p, packet, c);
    SameExceptArrivals(s, SetupStage(s.p, packet, c), PostedBySetup(packet, c), s.arrivals + [packet]);
  }

  lemma SameExceptArrivals(s: System, q: Pipe, kind: Word, arrivals: seq<seq<byte>>)
    requires PostsInv(s) && ActiveInv(s) && UpdateInv(s) && (kind == {} || IsKind(kind))
    requires q.status * SETUP == s.p.status * SETUP + kind
    requires TaskPending in q.status <==> TaskPending in s.p.status
    ensures var t := Post(s, q, kind).(arrivals := arrivals); PostsInv(t) && ActiveInv(t) && UpdateInv(t)
  {
    hide Merged, LastDispatch, Sound, Post;
    PostKeeps(s, q, kind);
    var t, u := Post(s, q, kind).(arrivals := arrivals), Post(s, q, kind);
    assert PostsInv(u) ==> PostsInv(t);
    assert ActiveInv(u) ==> ActiveInv(t);
    assert UpdateInv(u) ==> UpdateInv(t);
  }

  lemma DataKeeps(s: System, count: nat, c: Config)
    requires Inv(s)
    ensures Inv(Post(s, DataOutStage(s.p, count, c), PostedByData(s.p, count, c)))
  {
    hide Merged, LastDispatch, DataOutStage, SoundHandled, PostsInv, ActiveInv, UpdateInv;
    DataPosts(s.p, count, c);
    PostKeeps(s, DataOutStage(s.p, count, c), PostedByData(s.p, count, c));
  }

  lemma ProceedKeeps(s: System, ok: bool)
    requires Inv(s) && s.update == NoUpdate
    ensures Inv(ProceedStep(s, ok))
    ensures ProceedStep(s, ok).closed == s.closed && ProceedStep(s, ok).pending == s.pending
  {
    hide Merged, LastDispatch;
    assert s.pending[..|s.pending|] == s.pending;
  }

  lemma StallStoreKeeps(s: System)
    requires Inv(s) && s.update.Stalling?
    ensures Inv(StoreStep(s))
  {
    hide LastDispatch, Sound, SoundHandled, Merged;
    SettleKeeps(s, s.update.loaded, s.update.mark, s.update.loaded + STALLED);
    assert TaskPending in s.update.loaded + STALLED <==> TaskPending in s.update.loaded;
  }

  lemma ReleaseStoreKeeps(s: System)
    requires Inv(s) && s.update.Releasing?
    ensures Inv(StoreStep(s))
  {
    hide LastDispatch, Sound, SoundHandled, Merged;
    SettleKeeps(s, s.update.loaded, s.update.mark, s.update.loaded - TASK_PENDING);
  }

  lemma StoreLoses(s: System)
    requires Inv(s)
    ensures StoreStep(s).closed == s.closed
    ensures exists gone :: StoreStep(s).lost == s.lost + gone && s.pending == StoreStep(s).pending + gone
  {
    hide Merged, LastDispatch, Sound, SoundHandled;
    var t := StoreStep(s);
    if t.pending == s.pending && t.lost == s.lost {
      assert t.lost == s.lost + [] && s.pending == t.pending + [];
    } else {
      var gone := s.pending[s.update.mark..];
      assert t.lost == s.lost + gone && s.pending == t.pending + gone;
    }
  }

  /** The field written back is what stays pending. */
  lemma SettleKeeps(s: System, loaded: Word, mark: nat, stored: Word)
    requires AllKinds(s.pending) && s.p.status * SETUP == Merged(s.pending) && mark <= |s.pending|
    requires loaded * SETUP == Merged(s.pending[..mark])
    requires stored == loaded + STALLED || stored == loaded - TASK_PENDING
    ensures stored * SETUP == Merged(if s.p.status * SETUP <= loaded * SETUP then s.pending else s.pending[..mark])
  {
    hide Merged;
    assert stored * SETUP == loaded * SETUP;
    MergedGrows(s.pending, mark);
  }

  lemma {:induction false} MergedGrows(kinds: seq<Word>, mark: nat)
    requires mark <= |kinds|
    ensures Merged(kinds[..mark]) <= Merged(kinds)
    decreases |kinds|
  {
    if mark < |kinds| {
      MergedGrows(kinds[..|kinds| - 1], mark);
      assert kinds[..|kinds| - 1][..mark] == kinds[..mark];
    } else {
      assert kinds[..mark] == kinds;
    }
  }

  lemma TaskKeeps(s: System, e: Event)
    requires Inv(s) && s.update == NoUpdate
    ensures Inv(TaskStep(s, e))
    ensures Closed(TaskStep(s, e).closed) + TaskStep(s, e).pending == Closed(s.closed) + s.pending
    ensures TaskStep(s, e).lost == s.lost
  {
    hide Merged, Closed, Sound, LastDispatch, SoundHandled, TransferRun, ClaimStep, ProceedStep;
    match e
    case Claim => ClaimKeeps(s); ClaimLosesNothing(s);
    case Proceed(ok) => ProceedKeeps(s, ok); ProceedLosesNothing(s, ok);
    case Poll(busReset, dataOutPhase) =>
      PollClears(s.p, busReset, dataOutPhase);
      MayDropKeeps(s, TransferRun(s.p, busReset, dataOutPhase).0);
    case Stall => assert s.pending[..|s.pending|] == s.pending;
    case Reset =>
      ResetClears(s.p);
      MayDropKeeps(s, EndpointReset(s.p));
    case _ =>
  }

  lemma ClaimLosesNothing(s: System)
    ensures ClaimStep(s).lost == s.lost
  {
  }

  lemma ProceedLosesNothing(s: System, ok: bool)
    ensures ProceedStep(s, ok).lost == s.lost
  {
  }

  lemma ResetClears(p: Pipe)
    ensures var q := EndpointReset(p);
            q.status * SETUP == {} && (TaskPending in q.status <==> TaskPending in p.status) && q.setup == p.setup
  {
  }

  /** Everything posted and what became of it. */
  function Accounted(s: System): multiset<Word> {
    multiset(Closed(s.closed) + s.pending) + multiset(s.lost)
  }

  /** From s to t one post at most has been added, and only a loss takes any out of the account. */
  ghost predicate Accounts(s: System, t: System, kind: Word) {
    && s.lost <= t.lost
    && Accounted(t) == Accounted(s) + multiset(AsPost(kind))
    && (t.lost == s.lost ==> Closed(t.closed) + t.pending == Closed(s.closed) + s.pending + AsPost(kind))
  }

  lemma StepKeeps(s: System, e: Event, c: Config)
    requires Inv(s)
    ensures Inv(Step(s, e, c))
    ensures Accounts(s, Step(s, e, c), PostedBy(s, e, c))
  {
    hide Accounts, Inv, PostedBySetup, PostedByData, SetupStage, DataOutStage, DataInStage, TaskStep, StoreStep;
    var t := Step(s, e, c);
    match e
    case SetupArrives(packet) =>
      if IsSetupPacket(packet) { ArriveKeeps(s, packet, c); }
      PostAccounts(s, t, PostedBy(s, e, c));
    case PacketSent =>
      SendKeeps(s, c);
      PostAccounts(s, t, {});
    case PacketArrives(count) =>
      DataKeeps(s, count, c);
      PostAccounts(s, t, PostedByData(s.p, count, c));
    case Store => StoreAccounts(s);
    case _ =>
      if s.update == NoUpdate { TaskAccounts(s, e); } else { PostAccounts(s, t, {}); }
  }

  lemma PostAccounts(s: System, t: System, kind: Word)
    requires t.closed == s.closed && t.lost == s.lost && t.pending == s.pending + AsPost(kind)
    ensures Accounts(s, t, kind)
  {
    hide Closed;
    assert Closed(s.closed) + (s.pending + AsPost(kind)) == Closed(s.closed) + s.pending + AsPost(kind);
  }

  lemma TaskAccounts(s: System, e: Event)
    requires Inv(s) && s.update == NoUpdate
    ensures Inv(TaskStep(s, e)) && Accounts(s, TaskStep(s, e), {})
  {
    hide Closed, Inv, TaskStep;
    TaskKeeps(s, e);
    assert Closed(s.closed) + s.pending + [] == Closed(s.closed) + s.pending;
  }

  lemma StoreAccounts(s: System)
    requires Inv(s)
    ensures Inv(StoreStep(s)) && Accounts(s, StoreStep(s), {})
  {
    hide Closed, Inv, StoreStep;
    StoreLoses(s);
    StoreInv(s);
    var t := StoreStep(s);
    var gone :| t.lost == s.lost + gone && s.pending == t.pending + gone;
    assert Closed(s.closed) + s.pending == Closed(s.closed) + t.pending + gone;
    assert Closed(s.closed) + s.pending + [] == Closed(s.closed) + s.pending;
  }

  lemma StoreInv(s: System)
    requires Inv(s)
    ensures Inv(StoreStep(s))
  {
    hide Inv;
    if s.update.Stalling? { StallStoreKeeps(s); }
    if s.update.Releasing? { ReleaseStoreKeeps(s); }
  }

  lemma {:induction false} RunKeeps(s: System, events: seq<Event>, c: Config)
    requires Inv(s)
    ensures Inv(Run(s, events, c))
    ensures s.lost <= Run(s, events, c).lost
    ensures Accounted(Run(s, events, c)) == Accounted(s) + multiset(Posts(s, events, c))
    ensures Run(s, events, c).lost == s.lost ==>
              Closed(Run(s, events, c).closed) + Run(s, events, c).pending
                == Closed(s.closed) + s.pending + Posts(s, events, c)
    decreases |events|
  {
    hide Inv, Step, PostedBy, Closed, Accounted, AsPost;
    if events != [] {
      StepKeeps(s, events[0], c);
      RunKeeps(Step(s, events[0], c), events[1..], c);
    }
  }

  // ----- what every interleaving guarantees

  /** At every moment of every run at most one activation of the dispatcher exists, and exactly while it does,
      TASK_PENDING is set: another call returns without doing anything. It works on what was claimed last. */
  lemma DispatchIsExclusive(s: System, events: seq<Event>, c: Config)
    requires Quiet(s)
    ensures var t := Run(s, events, c);
            && |t.active| <= 1 && (t.active != [] <==> TaskPending in t.p.status)
            && (t.active != [] ==>
                  Step(t, Claim, c) == t
                  && LastDispatch(t.closed) == Dispatched(t.active[0].posted, t.active[0].kind))
  {
    hide Run, Merged, Closed, Sound, ClaimStep, LastDispatch, Quiet;
    QuietInv(s);
    RunKeeps(s, events, c);
    var t := Run(s, events, c);
    if t.update == NoUpdate { ClaimKeeps(t); }
  }

  /** Every post is in exactly one closed window, still pending, or overwritten by an unprotected update; without
      the last, windows hold the posts in their order. The bits a dispatch claims are those of its own window. */
  lemma EachPostConsumedAtMostOnce(s: System, events: seq<Event>, c: Config)
    requires Quiet(s)
    ensures var t := Run(s, events, c);
            && multiset(Posts(s, events, c)) == multiset(Closed(t.closed) + t.pending) + multiset(t.lost)
            && (t.lost == [] ==> Posts(s, events, c) == Closed(t.closed) + t.pending)
            && t.p.status * SETUP == Merged(t.pending)
            && forall i :: 0 <= i < |t.closed| && t.closed[i].Dispatched? ==>
                 t.closed[i].kinds != [] && t.closed[i].claimed == Merged(t.closed[i].kinds)
  {
    hide Run, Merged, Posts;
    QuietInv(s);
    RunKeeps(s, events, c);
    assert [] + [] + Posts(s, events, c) == Posts(s, events, c);
    assert Closed(s.closed) == [];
  }

  /** An unprotected update loses posts exactly when one that came between its load and its store has a bit
      that was not yet set at the load; no other step loses any. */
  lemma UpdateLosesIff(s: System, e: Event, c: Config)
    requires Inv(s)
    ensures Step(s, e, c).lost != s.lost <==>
              && e == Store && s.update != NoUpdate
              && exists i :: s.update.mark <= i < |s.pending| && !(s.pending[i] <= s.update.loaded * SETUP)
  {
    hide LastDispatch, Sound, SoundHandled, SetupStage, DataOutStage, DataInStage, Merged;
    match e
    case Store =>
      if s.update != NoUpdate {
        MergedIn(s.pending, s.update.loaded * SETUP);
        MergedIn(s.pending[..s.update.mark], s.update.loaded * SETUP);
        assert forall i :: 0 <= i < s.update.mark ==> s.pending[i] == s.pending[..s.update.mark][i];
        if s.pending[s.update.mark..] == [] {
          assert s.pending == s.pending[..s.update.mark];
        }
      }
    case SetupArrives(packet) =>
    case PacketSent =>
    case PacketArrives(count) =>
    case _ => if s.update == NoUpdate { TaskKeeps(s, e); }
  }

  lemma {:induction false} MergedIn(kinds: seq<Word>, bits: Word)
    ensures Merged(kinds) <= bits <==> forall i :: 0 <= i < |kinds| ==> kinds[i] <= bits
    decreases |kinds|
  {
    if kinds != [] {
      var n := |kinds| - 1;
      MergedIn(kinds[..n], bits);
      assert forall i :: 0 <= i < n ==> kinds[..n][i] == kinds[i];
      assert Merged(kinds) <= bits <==> Merged(kinds[..n]) <= bits && kinds[n] <= bits;
    }
  }

  /** Pending posts are dropped exactly by an endpoint reset, or by a poll that reports a completed transfer. */
  lemma DropIff(s: System, e: Event, c: Config)
    requires Inv(s) && s.pending != [] && s.update == NoUpdate
    ensures Step(s, e, c).closed == s.closed + [Dropped(s.pending)] <==>
              || e == Reset
              || (e.Poll? && !e.busReset && Stalled !in s.p.status && Transferring in s.p.status && Done in s.p.status)
  {
    hide LastDispatch, Sound, SoundHandled, SetupStage, DataOutStage, DataInStage, ProceedStep, ClaimStep;
    PendingIsSet(s);
    match e
    case Poll(busReset, dataOutPhase) => PollDrops(s.p, busReset, dataOutPhase);
    case Reset => ResetClears(s.p);
    case Proceed(ok) => ProceedKeeps(s, ok);
    case Claim => ClaimDropsNothing(s, Dropped(s.pending));
    case _ =>
  }

  lemma ClaimDropsNothing(s: System, w: Window)
    requires w.Dropped?
    ensures ClaimStep(s).closed != s.closed + [w]
  {
    assert (s.closed + [w])[|s.closed|].Dropped?;
  }

  lemma PendingIsSet(s: System)
    requires Inv(s) && s.pending != []
    ensures s.p.status * SETUP != {}
  {
    var n := |s.pending| - 1;
    assert IsKind(s.pending[n]);
    assert SetupLow in s.pending[n] || SetupHigh in s.pending[n];
  }

  lemma PollDrops(p: Pipe, busReset: bool, dataOutPhase: bool)
    requires p.status * SETUP != {}
    ensures TransferRun(p, busReset, dataOutPhase).0.status * SETUP == {} <==>
              !busReset && Stalled !in p.status && Transferring in p.status && Done in p.status
  {
    StatusTests(p.status);
    assert (p.status + TRANSFER) * SETUP == p.status * SETUP;
    assert (p.status * (USED + STALLED + TASK_PENDING)) * SETUP == {};
  }

  // ----- the driver object

  /** Endpoint 0 with the history of its requests; no method is interrupted. */
  class ControlPipe {
    const e: Endpoint
    ghost var history: System

    ghost predicate Valid()
      reads this, e
    {
      e.number == 0 && history.p == e.Now() && history.update == NoUpdate && Inv(history)
    }

    constructor (c: Config)
      ensures Valid() && Quiet(history) && fresh(e)
    {
      e := new Endpoint(0, c);
      new;
      history := System(e.Now(), [], NoUpdate, [], [], [], [], []);
      assert USED * (SETUP + TASK_PENDING) == {};
      QuietInv(history);
    }

    method OnSetup(packet: seq<byte>)
      requires Valid() && IsSetupPacket(packet)
      modifies this, e
      ensures Valid() && history == Step(old(history), SetupArrives(packet), e.c)
    {
      hide Inv, SetupStage;
      StepKeeps(history, SetupArrives(packet), e.c);
      e.OnSetup(packet);
      history := Step(history, SetupArrives(packet), e.c);
    }

    method OnDataIn()
      requires Valid()
      modifies this, e
      ensures Valid() && history == Step(old(history), PacketSent, e.c)
    {
      hide Inv, DataInStage;
      StepKeeps(history, PacketSent, e.c);
      e.OnDataIn();
      history := Step(history, PacketSent, e.c);
    }

    method OnDataOut(count: nat)
      requires Valid()
      modifies this, e
      ensures Valid() && history == Step(old(history), PacketArrives(count), e.c)
    {
      hide Inv, DataOutStage;
      StepKeeps(history, PacketArrives(count), e.c);
      e.OnDataOut(count);
      history := Step(history, PacketArrives(count), e.c);
    }

    method Poll(busReset: bool, dataOutPhase: bool) returns (verdict: Verdict)
      requires Valid()
      modifies this, e
      ensures Valid() && history == Step(old(history), Event.Poll(busReset, dataOutPhase), e.c)
      ensures verdict == TransferRun(old(history.p), busReset, dataOutPhase).1
    {
      hide Inv, TransferRun;
      StepKeeps(history, Event.Poll(busReset, dataOutPhase), e.c);
      verdict := e.Run(busReset, dataOutPhase);
      history := Step(history, Event.Poll(busReset, dataOutPhase), e.c);
    }

    method Stall()
      requires Valid()
      modifies this, e
      ensures Valid() && history == Run(old(history), [Event.Stall, Store], e.c)
    {
      hide Inv;
      RunTwo(history, Event.Stall, Store, e.c);
      RunKeeps(history, [Event.Stall, Store], e.c);
      e.Stall();
      history := Run(history, [Event.Stall, Store], e.c);
    }

    method Reset()
      requires Valid()
      modifies this, e
      ensures Valid() && history == Step(old(history), Event.Reset, e.c)
    {
      hide Inv;
      StepKeeps(history, Event.Reset, e.c);
      e.Reset();
      history := Step(history, Event.Reset, e.c);
    }

    /** A whole dispatch, or nothing while another is active or no request is posted. */
    method SetupIsrPending(ok: bool) returns (kind: Word)
      requires Valid()
      modifies this, e
      ensures Valid()
      ensures kind == {} ==> history == old(history)
      ensures kind != {} ==> history == Run(old(history), Dispatch(ok), e.c)
      ensures kind != {} <==> old(history).active == [] && old(history).pending != []
    {
      hide Inv;
      RunDispatch(history, ok, e.c);
      RunKeeps(history, Dispatch(ok), e.c);
      ghost var was := history;
      kind := e.SetupIsrPending(ok);
      if kind != {} {
        history := Run(history, Dispatch(ok), e.c);
      }
    }
  }

  lemma RunCons(s: System, e: Event, events: seq<Event>, c: Config)
    ensures Run(s, [e] + events, c) == Run(Step(s, e, c), events, c)
  {
    assert ([e] + events)[1..] == events;
  }

  lemma RunNothing(s: System, c: Config)
    ensures Run(s, [], c) == s
  {
  }

  lemma RunTwo(s: System, e0: Event, e1: Event, c: Config)
    ensures Run(s, [e0, e1], c) == Step(Step(s, e0, c), e1, c)
  {
    hide Step;
    RunNothing(Step(Step(s, e0, c), e1, c), c);
    RunCons(Step(s, e0, c), e1, [], c);
    RunCons(s, e0, [e1], c);
    assert [e1] + [] == [e1] && [e0] + [e1] == [e0, e1];
  }

  lemma RunThree(s: System, e0: Event, e1: Event, e2: Event, c: Config)
    ensures Run(s, [e0, e1, e2], c) == Step(Step(Step(s, e0, c), e1, c), e2, c)
  {
    hide Step, Run;
    RunTwo(Step(s, e0, c), e1, e2, c);
    RunCons(s, e0, [e1, e2], c);
    assert [e0] + [e1, e2] == [e0, e1, e2];
  }

  lemma {:induction false} RunSplit(s: System, a: seq<Event>, b: seq<Event>, c: Config)
    ensures Run(s, a + b, c) == Run(Run(s, a, c), b, c)
    decreases |a|
  {
    hide Step;
    if a == [] {
      assert a + b == b;
    } else {
      assert (a + b)[1..] == a[1..] + b;
      RunSplit(Step(s, a[0], c), a[1..], b, c);
    }
  }

  lemma NothingMerged()
    ensures Merged([]) == {}
  {
  }

  /** The pieces of one dispatch. */
  function Dispatch(ok: bool): seq<Event> { [Claim, Proceed(ok), Proceed(ok), Proceed(ok), Store] }

  lemma ClaimEffect(s: System, c: Config)
    requires Inv(s) && s.update == NoUpdate
    ensures var (q, kind) := ClaimSetup(s.p);
            var t := Step(s, Claim, c);
            && (kind != {} <==> s.active == [] && s.pending != [])
            && (kind == {} ==> q == s.p)
            && (kind != {} ==> t.p == q && t.active == [Activation(kind, s.pending, Entering)]
                               && t.update == NoUpdate)
  {
    hide LastDispatch, Sound, SoundHandled, Merged;
    ClaimBits(s.p);
    if s.pending == [] { NothingMerged(); } else { PendingIsSet(s); }
  }

  /** The pieces after the claim, with nothing between them. */
  lemma ProceedEffect(s: System, ok: bool, c: Config)
    requires |s.active| == 1 && s.active[0].stage == Entering && s.update == NoUpdate
    ensures var kind := s.active[0].kind;
            var t := Step(Step(Step(Step(s, Proceed(ok), c), Proceed(ok), c), Proceed(ok), c), Store, c);
            t.p == ReleaseTask(AfterProcess(BeforeProcess(s.p, kind), kind, ok)) && t.update == NoUpdate
  {
    hide BeforeProcess, AfterProcess;
    var kind := s.active[0].kind;
    var t := Step(Step(s, Proceed(ok), c), Proceed(ok), c);
    assert t.p == AfterProcess(BeforeProcess(s.p, kind), kind, ok) && t.active[0].stage == Leaving;
    assert t.update == NoUpdate && |t.active| == 1;
    ReleaseEffect(t, ok, c);
  }

  lemma ReleaseEffect(t: System, ok: bool, c: Config)
    requires |t.active| == 1 && t.active[0].stage == Leaving && t.update == NoUpdate
    ensures var u := Step(Step(t, Proceed(ok), c), Store, c); u.p == ReleaseTask(t.p) && u.update == NoUpdate
  {
  }

  /** Run one after the other they are the whole dispatch. */
  lemma RunDispatch(s: System, ok: bool, c: Config)
    requires Inv(s) && s.update == NoUpdate
    ensures var (q, kind) := ClaimSetup(s.p);
            && (kind != {} <==> s.active == [] && s.pending != [])
            && (kind == {} ==> q == s.p)
            && (kind != {} ==>
                  Run(s, Dispatch(ok), c).p == ReleaseTask(AfterProcess(BeforeProcess(q, kind), kind, ok))
                  && Run(s, Dispatch(ok), c).update == NoUpdate)
  {
    hide Run, Step, ClaimSetup, BeforeProcess, AfterProcess, Inv;
    ClaimEffect(s, c);
    var t := Step(s, Claim, c);
    if ClaimSetup(s.p).1 != {} {
      ProceedEffect(t, ok, c);
    }
    RunThree(s, Claim, Proceed(ok), Proceed(ok), c);
    RunTwo(Run(s, [Claim, Proceed(ok), Proceed(ok)], c), Proceed(ok), Store, c);
    RunSplit(s, [Claim, Proceed(ok), Proceed(ok)], [Proceed(ok), Store], c);
    assert [Claim, Proceed(ok), Proceed(ok)] + [Proceed(ok), Store] == Dispatch(ok);
  }
}
