/**
 Atomic register updates by exclusive load and store. An agent is a thread, an interrupt handler or another bus
 master; the monitor remembers which agents hold a reservation.
 */
module AtomicRegister {
  type word = bv32

  /** The update macros, and the plain store that does not look at the old value. */
  datatype Op = SetBit(bit: word) | ClearBit(bit: word) | Modify(clear: word, set_: word) | Store(value: word)

  function Apply(op: Op, v: word): word {
    match op
    case SetBit(bit) => With(v, bit)
    case ClearBit(bit) => Without(v, bit)
    case Modify(clear, set_) => With(Without(v, clear), set_)
    case Store(value) => value
  }

  function With(v: word, bits: word): word { v | bits }

  function Without(v: word, bits: word): word { v & !bits }

  function Masked(v: word, mask: word): word { v & mask }

  /** The operations one after the other. */
  function Sequential(v: word, ops: seq<Op>): word
    decreases |ops|
  {
    if ops == [] then v else Apply(ops[|ops| - 1], Sequential(v, ops[..|ops| - 1]))
  }

  // ----- any number of agents, any interleaving

  datatype Local = Ready | Loaded(val: word)

  /** What an agent still has to do, and whether it is between its load and its store. */
  datatype Agent = Agent(todo: seq<Op>, local: Local)

  datatype Commit = Commit(agent: nat, op: Op)

  datatype State = State(value: word, agents: seq<Agent>, monitor: set<nat>, log: seq<Commit>)

  /** Advance: the agent executes its next instruction; `spurious` makes an exclusive store fail for no reason.
      Lose: the agent loses its reservation, as on an exception entry. */
  datatype Event = Advance(agent: nat, spurious: bool) | Lose(agent: nat)

  function Start(value: word, programs: seq<seq<Op>>): (s: State)
    ensures |s.agents| == |programs|
  {
    State(value, seq(|programs|, i requires 0 <= i < |programs| => Agent(programs[i], Ready)), {}, [])
  }

  /** Each agent runs its next macro again until its exclusive store succeeds; every store drops all reservations. */
  function Step(s: State, e: Event): State {
    if e.agent >= |s.agents| then s else
    var i := e.agent;
    var a := s.agents[i];
    if e.Lose? then s.(monitor := s.monitor - {i})
    else if a.todo == [] then s
    else if a.todo[0].Store? then Stored(s, i, a.todo[0].value)
    else match a.local
      case Ready => s.(agents := s.agents[i := a.(local := Loaded(s.value))], monitor := s.monitor + {i})
      case Loaded(val) =>
        if i in s.monitor && !e.spurious then Stored(s, i, Apply(a.todo[0], val))
        else s.(agents := s.agents[i := a.(local := Ready)], monitor := s.monitor - {i})
  }

  /** The agent's first operation takes effect with this value. */
  function Stored(s: State, i: nat, v: word): State
    requires i < |s.agents| && s.agents[i].todo != []
  {
    State(v, s.agents[i := Agent(s.agents[i].todo[1..], Ready)], {}, s.log + [Commit(i, s.agents[i].todo[0])])
  }

  function Run(s: State, events: seq<Event>): State
    decreases |events|
  {
    if events == [] then s else Run(Step(s, events[0]), events[1..])
  }

  function Ops(log: seq<Commit>): (r: seq<Op>)
    ensures |r| == |log| && forall i :: 0 <= i < |log| ==> r[i] == log[i].op
  {
    seq(|log|, i requires 0 <= i < |log| => log[i].op)
  }

  /** What one agent committed, in order. */
  function By(agent: nat, log: seq<Commit>): seq<Op>
    decreases |log|
  {
    if log == [] then [] else
      var last := log[|log| - 1];
      By(agent, log[..|log| - 1]) + if last.agent == agent then [last.op] else []
  }

  /** The value is that of the log executed sequentially; every agent has committed a prefix of its program;
      a reservation vouches for the loaded value. */
  ghost predicate Inv(s: State, init: word, programs: seq<seq<Op>>) {
    && |s.agents| == |programs|
    && s.value == Sequential(init, Ops(s.log))
    && (forall i :: 0 <= i < |programs| ==> By(i, s.log) + s.agents[i].todo == programs[i])
    && (forall i :: 0 <= i < |programs| && i in s.monitor && s.agents[i].local.Loaded? ==>
          s.agents[i].local.val == s.value)
    && (forall i :: 0 <= i < |s.log| ==> s.log[i].agent < |programs|)
  }

  lemma StoredKeeps(s: State, i: nat, v: word, init: word, programs: seq<seq<Op>>)
    requires Inv(s, init, programs) && i < |programs| && s.agents[i].todo != []
    requires v == Apply(s.agents[i].todo[0], s.value)
    ensures Inv(Stored(s, i, v), init, programs)
  {
    hide Apply, Sequential, Ops, By;
    var t, todo := Stored(s, i, v), s.agents[i].todo;
    OneMoreCommit(init, s.log, Commit(i, todo[0]));
    assert todo == [todo[0]] + todo[1..];
    forall j | 0 <= j < |programs| ensures By(j, t.log) + t.agents[j].todo == programs[j] {
      ByOneMore(j, s.log, Commit(i, todo[0]));
    }
  }

  lemma OneMoreCommit(init: word, log: seq<Commit>, commit: Commit)
    ensures Sequential(init, Ops(log + [commit])) == Apply(commit.op, Sequential(init, Ops(log)))
  {
    hide Apply;
    assert Ops(log + [commit])[..|log|] == Ops(log);
  }

  lemma ByOneMore(agent: nat, log: seq<Commit>, commit: Commit)
    ensures By(agent, log + [commit]) == By(agent, log) + if commit.agent == agent then [commit.op] else []
  {
    assert (log + [commit])[..|log|] == log;
  }

  lemma StepKeeps(s: State, e: Event, init: word, programs: seq<seq<Op>>)
    requires Inv(s, init, programs)
    ensures Inv(Step(s, e), init, programs)
    ensures s.log <= Step(s, e).log
  {
    hide Sequential, Ops, By;
    if e.Advance? && e.agent < |s.agents| && s.agents[e.agent].todo != [] {
      var a := s.agents[e.agent];
      if a.todo[0].Store? {
        StoredKeeps(s, e.agent, a.todo[0].value, init, programs);
      } else if a.local.Loaded? && e.agent in s.monitor && !e.spurious {
        StoredKeeps(s, e.agent, Apply(a.todo[0], a.local.val), init, programs);
      }
    }
  }

  lemma {:induction false} RunKeeps(s: State, events: seq<Event>, init: word, programs: seq<seq<Op>>)
    requires Inv(s, init, programs)
    ensures Inv(Run(s, events), init, programs)
    ensures s.log <= Run(s, events).log
    decreases |events|
  {
    hide Inv, Step;
    if events != [] {
      StepKeeps(s, events[0], init, programs);
      RunKeeps(Step(s, events[0]), events[1..], init, programs);
    }
  }

  /** Linearizability: at every moment the register holds what the operations committed so far give one after
      the other, and those are, agent by agent and in order, a prefix of each program: no update is lost or
      done twice. */
  lemma Linearizable(init: word, programs: seq<seq<Op>>, events: seq<Event>)
    ensures var s := Run(Start(init, programs), events);
            && |s.agents| == |programs|
            && s.value == Sequential(init, Ops(s.log))
            && forall i :: 0 <= i < |programs| ==> By(i, s.log) + s.agents[i].todo == programs[i]
  {
    hide Run;
    RunKeeps(Start(init, programs), events, init, programs);
  }

  /** Commits stay where they are when the run goes on. */
  lemma CommitsStay(init: word, programs: seq<seq<Op>>, before: seq<Event>, after: seq<Event>)
    ensures Run(Start(init, programs), before).log <= Run(Start(init, programs), before + after).log
  {
    hide Run, Start;
    RunSplit(Start(init, programs), before, after);
    StartInv(init, programs);
    RunKeeps(Start(init, programs), before, init, programs);
    RunKeeps(Run(Start(init, programs), before), after, init, programs);
  }

  lemma {:induction false} CommittedEarlier(log: seq<Commit>, j: nat)
    requires j < |log|
    ensures |By(log[j].agent, log[..j])| < |By(log[j].agent, log)|
    decreases |log|
  {
    var n := |log| - 1;
    if j < n {
      CommittedEarlier(log[..n], j);
      assert log[..n][..j] == log[..j] && log[..n][j] == log[j];
    }
  }

  /** Real-time order: an operation that completed before another one began takes effect before it. At that moment
      the first is commit i of the log, and the second is not among its agent's commits; once the second has been
      committed, at place j and after as many of its agent's operations as had been committed then or more, the
      first is still commit i, and i comes before j. */
  lemma CommitsKeepTheirOrder(init: word, programs: seq<seq<Op>>, before: seq<Event>, after: seq<Event>, i: nat, j: nat)
    requires i < |Run(Start(init, programs), before).log|
    requires j < |Run(Start(init, programs), before + after).log|
    requires var early, log := Run(Start(init, programs), before).log, Run(Start(init, programs), before + after).log;
             |By(log[j].agent, log[..j])| >= |By(log[j].agent, early)|
    ensures var early, log := Run(Start(init, programs), before).log, Run(Start(init, programs), before + after).log;
            i < j && log[i] == early[i]
  {
    hide Run, Start;
    CommitsStay(init, programs, before, after);
    var early, log := Run(Start(init, programs), before).log, Run(Start(init, programs), before + after).log;
    if j < |early| { CommittedInPrefix(early, log, j); }
  }

  lemma CommittedInPrefix(early: seq<Commit>, log: seq<Commit>, j: nat)
    requires j < |early| && early <= log
    ensures |By(log[j].agent, log[..j])| < |By(log[j].agent, early)|
  {
    CommittedEarlier(early, j);
    assert early[..j] == log[..j] && early[j] == log[j];
  }

  lemma StartInv(init: word, programs: seq<seq<Op>>)
    ensures Inv(Start(init, programs), init, programs)
  {
  }

  lemma {:induction false} RunSplit(s: State, a: seq<Event>, b: seq<Event>)
    ensures Run(s, a + b) == Run(Run(s, a), b)
    decreases |a|
  {
    hide Step;
    if a == [] {
      assert a + b == b;
    } else {
      assert (a + b)[1..] == a[1..] + b;
      RunSplit(Step(s, a[0]), a[1..], b);
    }
  }

  /** What an agent that is left alone needs for its next operation: one step for a plain store or a store that is still
      reserved, two from the load, one more to find its reservation lost. */
  function StepsLeft(s: State, i: nat): nat
    requires i < |s.agents| && s.agents[i].todo != []
  {
    var a := s.agents[i];
    if a.todo[0].Store? then 1 else if a.local == Ready then 2 else if i in s.monitor then 1 else 3
  }

  function Alone(s: State, i: nat, steps: nat): State
    decreases steps
  {
    if steps == 0 then s else Alone(Step(s, Advance(i, false)), i, steps - 1)
  }

  /** Then its operation has taken effect, on the value of its last load, or on the present one if it had to load. */
  lemma LeftAloneCommits(s: State, i: nat)
    requires i < |s.agents| && s.agents[i].todo != []
    ensures var a := s.agents[i];
            var t := Alone(s, i, StepsLeft(s, i));
            && t.log == s.log + [Commit(i, a.todo[0])]
            && t.agents == s.agents[i := Agent(a.todo[1..], Ready)]
            && t.value == Apply(a.todo[0], if a.local.Loaded? && i in s.monitor then a.local.val else s.value)
  {
    var a, go := s.agents[i], Advance(i, false);
    if !a.todo[0].Store? {
      hide Apply;
      var loaded := Step(s, go);
      if a.local == Ready {
        assert Alone(s, i, 2) == Alone(loaded, i, 1) == Step(loaded, go);
      } else if i !in s.monitor {
        var again := Step(loaded, go);
        assert Alone(s, i, 3) == Alone(loaded, i, 2) == Alone(again, i, 1) == Step(again, go);
      }
    }
  }

  // ----- what that means for the bits

  /** The operation leaves the bits of the mask alone. */
  predicate Spares(op: Op, mask: word) {
    match op
    case SetBit(bit) => Masked(bit, mask) == 0
    case ClearBit(bit) => Masked(bit, mask) == 0
    case Modify(clear, set_) => Masked(clear, mask) == 0 && Masked(set_, mask) == 0
    case Store(value) => mask == 0
  }

  lemma SparedBits(op: Op, v: word, mask: word)
    requires Spares(op, mask)
    ensures Masked(Apply(op, v), mask) == Masked(v, mask)
  {
    hide With, Without, Masked;
    match op
    case SetBit(bit) => SetSpares(v, bit, mask);
    case ClearBit(bit) => ClearSpares(v, bit, mask);
    case Modify(clear, set_) => SetSpares(Without(v, clear), set_, mask); ClearSpares(v, clear, mask);
    case Store(value) => NoBits(value, v);
  }

  lemma SetSpares(v: word, bits: word, mask: word)
    requires Masked(bits, mask) == 0
    ensures Masked(With(v, bits), mask) == Masked(v, mask)
  {
  }

  lemma ClearSpares(v: word, bits: word, mask: word)
    requires Masked(bits, mask) == 0
    ensures Masked(Without(v, bits), mask) == Masked(v, mask)
  {
  }

  lemma NoBits(v: word, w: word)
    ensures Masked(v, 0) == Masked(w, 0)
  {
  }

  /** Bits of the result depend only on the same bits of the old value. */
  lemma BitsAreIndependent(op: Op, v: word, w: word, mask: word)
    requires Masked(v, mask) == Masked(w, mask)
    ensures Masked(Apply(op, v), mask) == Masked(Apply(op, w), mask)
  {
    hide With, Without, Masked;
    match op
    case SetBit(bit) => SetBits(v, w, bit, mask);
    case ClearBit(bit) => ClearBits(v, w, bit, mask);
    case Modify(clear, set_) =>
      ClearBits(v, w, clear, mask);
      SetBits(Without(v, clear), Without(w, clear), set_, mask);
    case Store(value) =>
  }

  lemma SetBits(v: word, w: word, bits: word, mask: word)
    requires Masked(v, mask) == Masked(w, mask)
    ensures Masked(With(v, bits), mask) == Masked(With(w, bits), mask)
  {
    hide With, Masked;
    MaskedWith(v, bits, mask);
    MaskedWith(w, bits, mask);
  }

  lemma MaskedWith(v: word, bits: word, mask: word)
    ensures Masked(With(v, bits), mask) == With(Masked(v, mask), Masked(bits, mask))
  {
  }

  lemma ClearBits(v: word, w: word, bits: word, mask: word)
    requires Masked(v, mask) == Masked(w, mask)
    ensures Masked(Without(v, bits), mask) == Masked(Without(w, bits), mask)
  {
    hide Without, Masked;
    MaskedWithout(v, bits, mask);
    MaskedWithout(w, bits, mask);
  }

  lemma MaskedWithout(v: word, bits: word, mask: word)
    ensures Masked(Without(v, bits), mask) == Without(Masked(v, mask), bits)
  {
  }

  lemma SetSets(v: word, bits: word, mask: word)
    requires Masked(bits, mask) == mask
    ensures Masked(With(v, bits), mask) == mask
  {
  }

  lemma ClearClears(v: word, bits: word, mask: word)
    requires Masked(bits, mask) == mask
    ensures Masked(Without(v, bits), mask) == 0
  {
  }

  /** What an operation does to any bits it touches: setting leaves them set, clearing leaves them clear, and a
      modification clears first and sets afterwards, so a bit in both of its masks ends set. */
  lemma TouchedBits(op: Op, v: word, mask: word)
    ensures op.SetBit? && Masked(op.bit, mask) == mask ==> Masked(Apply(op, v), mask) == mask
    ensures op.ClearBit? && Masked(op.bit, mask) == mask ==> Masked(Apply(op, v), mask) == 0
    ensures op.Modify? && Masked(op.set_, mask) == mask ==> Masked(Apply(op, v), mask) == mask
    ensures op.Modify? && Masked(op.clear, mask) == mask && Masked(op.set_, mask) == 0 ==>
              Masked(Apply(op, v), mask) == 0
    ensures op.Store? ==> Apply(op, v) == op.value
  {
    hide With, Without, Masked;
    match op
    case SetBit(bit) => if Masked(bit, mask) == mask { SetSets(v, bit, mask); }
    case ClearBit(bit) => if Masked(bit, mask) == mask { ClearClears(v, bit, mask); }
    case Modify(clear, set_) =>
      if Masked(set_, mask) == mask {
        SetSets(Without(v, clear), set_, mask);
      } else if Masked(clear, mask) == mask && Masked(set_, mask) == 0 {
        ClearClears(v, clear, mask);
        SetSpares(Without(v, clear), set_, mask);
      }
    case Store(value) =>
  }

  /** A mask picks out exactly its bits: whatever is in both, and nothing else. */
  lemma MaskPicks(v: word, mask: word)
    ensures Masked(v, mask) | (v & !mask) == v && Masked(v, mask) & !mask == 0
  {
  }

  lemma {:induction false} OwnBitsInLog(init: word, log: seq<Commit>, agent: nat, mask: word)
    requires forall i :: 0 <= i < |log| && log[i].agent != agent ==> Spares(log[i].op, mask)
    ensures Masked(Sequential(init, Ops(log)), mask) == Masked(Sequential(init, By(agent, log)), mask)
    decreases |log|
  {
    hide Apply, Spares, Masked;
    if log != [] {
      var last, rest := log[|log| - 1], log[..|log| - 1];
      assert Ops(log)[..|log| - 1] == Ops(rest);
      OwnBitsInLog(init, rest, agent, mask);
      if last.agent == agent {
        var mine := By(agent, rest) + [last.op];
        assert mine[..|mine| - 1] == By(agent, rest);
        BitsAreIndependent(last.op, Sequential(init, Ops(rest)), Sequential(init, By(agent, rest)), mask);
      } else {
        assert By(agent, log) == By(agent, rest);
        SparedBits(last.op, Sequential(init, Ops(rest)), mask);
      }
    }
  }

  predicate Finished(s: State, agent: nat) { agent < |s.agents| && s.agents[agent].todo == [] }

  /** Bits that only one agent changes end up as if that agent had run alone,
      whatever the others do to the rest of the register. */
  lemma OwnBitsAreUndisturbed(init: word, programs: seq<seq<Op>>, events: seq<Event>, agent: nat, mask: word)
    requires agent < |programs|
    requires forall i, k :: 0 <= i < |programs| && i != agent && 0 <= k < |programs[i]| ==> Spares(programs[i][k], mask)
    requires Finished(Run(Start(init, programs), events), agent)
    ensures Masked(Run(Start(init, programs), events).value, mask) == Masked(Sequential(init, programs[agent]), mask)
  {
    hide Run, Start, Spares, Sequential, Apply, Masked, By;
    StartInv(init, programs);
    RunKeeps(Start(init, programs), events, init, programs);
    var s := Run(Start(init, programs), events);
    forall i | 0 <= i < |s.log| && s.log[i].agent != agent ensures Spares(s.log[i].op, mask) {
      var k := PlaceInProgram(s.log, i);
      assert (By(s.log[i].agent, s.log) + s.agents[s.log[i].agent].todo)[k] == s.log[i].op;
    }
    OwnBitsInLog(init, s.log, agent, mask);
    assert By(agent, s.log) + [] == By(agent, s.log);
    assert s.agents[agent].todo == [];
    assert By(agent, s.log) == programs[agent];
  }

  /** Where a commit is among its agent's commits. */
  lemma {:induction false} PlaceInProgram(log: seq<Commit>, i: nat) returns (k: nat)
    requires i < |log|
    ensures k < |By(log[i].agent, log)| && By(log[i].agent, log)[k] == log[i].op
    decreases |log|
  {
    if i == |log| - 1 {
      k := |By(log[i].agent, log)| - 1;
    } else {
      assert log[..|log| - 1][i] == log[i];
      k := PlaceInProgram(log[..|log| - 1], i);
    }
  }

  // ----- one retry loop

  /** What happens between an exclusive load and its store: stores by others, or a failure for no reason. */
  datatype Disturbance = Disturbance(stores: seq<word>, spurious: bool)

  predicate Quiet(d: Disturbance) { d.stores == [] && !d.spurious }

  /** The value after the stores of others. */
  function After(v: word, ds: seq<Disturbance>): word
    decreases |ds|
  {
    if ds == [] then v else
      var stores := ds[|ds| - 1].stores;
      if stores == [] then After(v, ds[..|ds| - 1]) else stores[|stores| - 1]
  }

  class Register {
    var value: word
    var reserved: bool

    constructor (v: word)
      ensures value == v
    {
      value, reserved := v, false;
    }

    method LoadExclusive() returns (v: word)
      modifies this`reserved
      ensures v == value && reserved
    {
      reserved := true;
      v := value;
    }

    method Disturb(d: Disturbance)
      modifies this
      ensures value == After(old(value), [d])
      ensures reserved == (old(reserved) && d.stores == [])
    {
      if d.stores != [] {
        value, reserved := d.stores[|d.stores| - 1], false;
      }
    }

    method StoreExclusive(v: word, spurious: bool) returns (status: nat)
      modifies this
      ensures !reserved
      ensures status == 0 <==> old(reserved) && !spurious
      ensures value == if status == 0 then v else old(value)
    {
      if reserved && !spurious {
        value, status := v, 0;
      } else {
        status := 1;
      }
      reserved := false;
    }

    /** The retry loop of the update macros: as many attempts as are disturbed, and then one update of the value
        the others left behind. */
    method Update(op: Op, disturbances: seq<Disturbance>) returns (failures: nat)
      requires !op.Store?
      modifies this
      ensures failures <= |disturbances|
      ensures forall i :: 0 <= i < failures ==> disturbances[i].stores != [] || disturbances[i].spurious
      ensures failures < |disturbances| ==> disturbances[failures].stores == [] && !disturbances[failures].spurious
      ensures value == Apply(op, After(old(value), disturbances[..failures]))
    {
      failures := 0;
      var status := 1;
      while status != 0
        invariant failures <= |disturbances|
        invariant forall i :: 0 <= i < failures ==> !Quiet(disturbances[i])
        invariant status != 0 ==> value == After(old(value), disturbances[..failures])
        invariant status == 0 ==> value == Apply(op, After(old(value), disturbances[..failures]))
        invariant status == 0 && failures < |disturbances| ==> Quiet(disturbances[failures])
        decreases |disturbances| - failures, status
      {
        var val := LoadExclusive();
        var d := if failures < |disturbances| then disturbances[failures] else Disturbance([], false);
        Disturb(d);
        status := StoreExclusive(Apply(op, val), d.spurious);
        if status != 0 {
          failures := failures + 1;
          assert disturbances[..failures][..failures - 1] == disturbances[..failures - 1];
        }
      }
    }
  }
}
