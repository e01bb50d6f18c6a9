/**
 The microsecond clock: a hardware counter with a 1001-tick period, its update flag, and a millisecond count
 kept by the interrupt handler. Ticks may fall between any two statements of the software.
 */
module Clock {
  const RELOAD := 1000
  const PERIOD := RELOAD + 1
  const GUARD := 100

  /** What the clock should show `tick` ticks after its start: every period of 1001 ticks counts as 1000,
      and the update event forced by timer_init counts as one period already elapsed. */
  function Ideal(tick: nat): nat {
    1000 * (1 + tick / PERIOD) + tick % PERIOD
  }

  lemma IdealOf(periods: nat, cnt: nat)
    requires cnt < PERIOD
    ensures Ideal(PERIOD * periods + cnt) == 1000 * (1 + periods) + cnt
  {
  }

  /** The clock shows the count through a period, and a period of 1001 ticks as 1000. */
  lemma PeriodsShownAsThousands(tick: nat)
    ensures tick <= 1000 ==> Ideal(tick) == 1000 + tick
    ensures Ideal(tick + 1001) == Ideal(tick) + 1000
  {
    assert (tick + 1001) / 1001 == tick / 1001 + 1;
  }

  /** The ideal clock never goes backwards and never runs faster than the ticks. */
  lemma IdealIsMonotone(a: nat, b: nat)
    requires a <= b
    ensures Ideal(a) <= Ideal(b) <= Ideal(a) + (b - a)
  {
  }

  // ----- the software, statement by statement

  /** `forced` handler statements run inside timer_get_time_irq. A pending read remembers the tick of its sample. */
  datatype Pc =
    | Idle
    | Test(forced: bool)           // if (SR & UIF)
    | Clear(forced: bool)          // SR &= ~UIF
    | Count(forced: bool)          // timer_ms++
    | LoadCnt                      // t = CNT
    | LoadSr(sample: nat, t: nat)  // if (t < 100 && (SR & UIF)) t += 1000
    | LoadMs(sample: nat, t: nat)  // return timer_ms * 1000 + t

  datatype Reading = Reading(sample: nat, value: nat)

  datatype State = State(tick: nat, periods: nat, cnt: nat, uif: bool, ms: nat, pc: Pc, readings: seq<Reading>)

  datatype Event = Tick | Irq | GetTime | GetTimeIrq | Cpu

  /** After timer_init: the forced update event has set the flag. */
  const START := State(0, 0, 0, true, 0, Idle, [])

  function TickStep(s: State): State {
    if s.cnt == RELOAD then s.(tick := s.tick + 1, periods := s.periods + 1, cnt := 0, uif := true)
    else s.(tick := s.tick + 1, cnt := s.cnt + 1)
  }

  function AfterHandler(forced: bool): Pc { if forced then LoadCnt else Idle }

  function CpuStep(s: State): State {
    match s.pc
    case Idle => s
    case Test(forced) => s.(pc := if s.uif then Clear(forced) else AfterHandler(forced))
    case Clear(forced) => s.(pc := Count(forced), uif := false)
    case Count(forced) => s.(pc := AfterHandler(forced), ms := s.ms + 1)
    case LoadCnt => s.(pc := LoadSr(s.tick, s.cnt))
    case LoadSr(sample, t) => s.(pc := LoadMs(sample, if t < GUARD && s.uif then t + 1000 else t))
    case LoadMs(sample, t) => s.(pc := Idle, readings := s.readings + [Reading(sample, s.ms * 1000 + t)])
  }

  /** Reads run with interrupts disabled, so an interrupt and a new call start only from Idle.
      An interrupt may come with the flag already cleared. */
  function Step(s: State, e: Event): State {
    match e
    case Tick => TickStep(s)
    case Cpu => CpuStep(s)
    case Irq => if s.pc == Idle then s.(pc := Test(false)) else s
    case GetTime => if s.pc == Idle then s.(pc := LoadCnt) else s
    case GetTimeIrq => if s.pc == Idle then s.(pc := Test(true)) else s
  }

  predicate Pending(s: State) { s.uif || s.pc.Count? }

  /** Timely service: an overflow is served before the counter reaches `bound`, and a read that sampled the counter
      below 100 tests the flag before the next overflow. */
  predicate InTimeBy(s: State, e: Event, bound: nat) {
    e == Tick ==> !(s.cnt + 1 == bound && Pending(s)) && !(s.cnt == RELOAD && s.pc.LoadSr? && s.pc.t < GUARD)
  }

  predicate RunInTimeBy(s: State, events: seq<Event>, bound: nat)
    decreases |events|
  {
    events == [] || (InTimeBy(s, events[0], bound) && RunInTimeBy(Step(s, events[0]), events[1..], bound))
  }

  /** The hypothesis of the results below: the bound the reader relies on. */
  predicate InTime(s: State, e: Event) { InTimeBy(s, e, GUARD) }

  predicate RunInTime(s: State, events: seq<Event>) { RunInTimeBy(s, events, GUARD) }

  function Run(s: State, events: seq<Event>): State
    decreases |events|
  {
    if events == [] then s else Run(Step(s, events[0]), events[1..])
  }

  // ----- the invariant

  predicate CountsPeriods(s: State) {
    && s.cnt < PERIOD && s.tick == PERIOD * s.periods + s.cnt
    && s.ms + (if Pending(s) then 1 else 0) == 1 + s.periods
    && (Pending(s) ==> s.cnt < GUARD)
    && (s.pc.Clear? ==> s.uif) && (s.pc.Count? ==> !s.uif)
  }

  predicate ReadInFlight(s: State) {
    match s.pc
    case LoadSr(sample, t) =>
      && sample <= s.tick && t < PERIOD
      && (if t < GUARD then sample == PERIOD * s.periods + t else Ideal(sample) == 1000 * s.ms + t)
    case LoadMs(sample, t) => sample <= s.tick && Ideal(sample) == 1000 * s.ms + t
    case _ => true
  }

  /** Readings are ideal readings of non-decreasing moments. */
  predicate Faithful(readings: seq<Reading>) {
    && (forall i :: 0 <= i < |readings| ==> readings[i].value == Ideal(readings[i].sample))
    && (forall i, j :: 0 <= i < j < |readings| ==> readings[i].sample <= readings[j].sample)
  }

  /** The last sample is not later than the one now being taken. */
  predicate SamplesInOrder(s: State) {
    forall i :: 0 <= i < |s.readings| ==>
      s.readings[i].sample <= (if s.pc.LoadSr? || s.pc.LoadMs? then s.pc.sample else s.tick)
  }

  predicate Inv(s: State) {
    CountsPeriods(s) && ReadInFlight(s) && Faithful(s.readings) && SamplesInOrder(s)
  }

  lemma StartInv()
    ensures Inv(START)
  {
  }

  lemma TickKeeps(s: State)
    requires Inv(s) && InTime(s, Tick)
    ensures Inv(TickStep(s))
  {
  }

  lemma CpuKeeps(s: State)
    requires Inv(s)
    ensures Inv(CpuStep(s))
  {
    hide Ideal;
    IdealOf(s.periods, s.cnt);
    if s.pc.LoadSr? && s.pc.t < GUARD {
      IdealOf(s.periods, s.pc.t);
    }
  }

  lemma StepKeeps(s: State, e: Event)
    requires Inv(s) && InTime(s, e)
    ensures Inv(Step(s, e))
  {
    hide Ideal, CpuStep, TickStep;
    if e == Tick { TickKeeps(s); }
    if e == Cpu { CpuKeeps(s); }
  }

  lemma {:induction false} RunKeeps(s: State, events: seq<Event>)
    requires Inv(s) && RunInTime(s, events)
    ensures Inv(Run(s, events))
    decreases |events|
  {
    hide Inv, Step, InTimeBy;
    if events != [] {
      StepKeeps(s, events[0]);
      RunKeeps(Step(s, events[0]), events[1..]);
    }
  }

  /** The millisecond count plus the pending update is the number of update events: none is lost, none counted twice. */
  lemma EveryOverflowCountedOnce(events: seq<Event>)
    requires RunInTime(START, events)
    ensures var s := Run(START, events);
            s.ms + (if Pending(s) then 1 else 0) == 1 + s.tick / 1001 && s.cnt == s.tick % 1001
  {
    hide Run;
    RunKeeps(START, events);
    var s := Run(START, events);
    assert s.tick / 1001 == s.periods && s.tick % 1001 == s.cnt;
  }

  /** A read is under way, from its call to its return. */
  predicate Reads(pc: Pc) {
    match pc
    case Idle => false
    case Test(forced) => forced
    case Clear(forced) => forced
    case Count(forced) => forced
    case _ => true
  }

  /** The calls of either read function in a run. */
  function ReadCalls(s: State, events: seq<Event>): nat
    decreases |events|
  {
    if events == [] then 0 else
      (if s.pc == Idle && (events[0] == GetTime || events[0] == GetTimeIrq) then 1 else 0)
      + ReadCalls(Step(s, events[0]), events[1..])
  }

  /** Every call of a read function yields one reading, and an interrupt yields none. */
  lemma {:induction false} EachCallReadsOnce(s: State, events: seq<Event>)
    ensures var t := Run(s, events);
            |t.readings| + (if Reads(t.pc) then 1 else 0)
              == |s.readings| + (if Reads(s.pc) then 1 else 0) + ReadCalls(s, events)
    decreases |events|
  {
    if events != [] {
      EachCallReadsOnce(Step(s, events[0]), events[1..]);
    }
  }

  /** Over any run the clock never goes backwards, and between two readings it does not advance
      by more than the ticks between their samples. */
  lemma ClockIsMonotone(events: seq<Event>, i: nat, j: nat)
    requires RunInTime(START, events)
    requires i <= j < |Run(START, events).readings|
    ensures var r := Run(START, events).readings;
            && r[i].sample <= r[j].sample
            && r[i].value <= r[j].value <= r[i].value + (r[j].sample - r[i].sample)
  {
    hide Run, Ideal;
    RunKeeps(START, events);
    var r := Run(START, events).readings;
    IdealIsMonotone(r[i].sample, r[j].sample);
  }

  // ----- the service bound

  predicate NeverBackwards(readings: seq<Reading>) {
    forall i, j :: 0 <= i < j < |readings| ==> readings[i].value <= readings[j].value
  }

  /** A tighter bound is served in time all the more. */
  lemma {:induction false} TighterBound(s: State, events: seq<Event>, bound: nat)
    requires Inv(s) && bound <= GUARD && (Pending(s) ==> s.cnt < bound) && bound > 0
    requires RunInTimeBy(s, events, bound)
    ensures RunInTime(s, events)
    decreases |events|
  {
    hide Ideal, ReadInFlight, SamplesInOrder, Faithful;
    if events != [] {
      StepKeeps(s, events[0]);
      TighterBound(Step(s, events[0]), events[1..], bound);
    }
  }

  function Ticks(n: nat): seq<Event> { seq(n, _ => Tick) }

  /** The first ticks after the start, with the forced update event never served. */
  lemma {:induction false} Unserved(n: nat, k: nat, rest: seq<Event>, bound: nat)
    requires n + k < bound && n + k < PERIOD
    ensures var s := State(n, 0, n, true, 0, Idle, []);
            var t := State(n + k, 0, n + k, true, 0, Idle, []);
            && Run(s, Ticks(k) + rest) == Run(t, rest)
            && (RunInTimeBy(t, rest, bound) ==> RunInTimeBy(s, Ticks(k) + rest, bound))
    decreases k
  {
    if k == 0 {
      assert Ticks(0) + rest == rest;
    } else {
      assert (Ticks(k) + rest)[1..] == Ticks(k - 1) + rest;
      Unserved(n + 1, k - 1, rest, bound);
    }
  }

  function TwoReadings(): seq<Event> { [GetTime, Cpu, Cpu, Cpu] + [Tick, GetTime, Cpu, Cpu, Cpu] }

  /** After 99 ticks with the update still unserved: a reading, one more tick, and a reading that is lower. */
  lemma ReadTwice(bound: nat)
    requires bound > GUARD
    ensures var s := State(GUARD - 1, 0, GUARD - 1, true, 0, Idle, []);
            && RunInTimeBy(s, TwoReadings(), bound)
            && Run(s, TwoReadings()).readings == [Reading(GUARD - 1, 1099), Reading(GUARD, 100)]
  {
    var s := State(GUARD - 1, 0, GUARD - 1, true, 0, Idle, []);
    var t := State(GUARD - 1, 0, GUARD - 1, true, 0, Idle, [Reading(GUARD - 1, 1099)]);
    var u := State(GUARD, 0, GUARD, true, 0, Idle, [Reading(GUARD - 1, 1099)]);
    hide Run, RunInTimeBy, TickStep;
    var more := [GetTime, Cpu, Cpu, Cpu] + [];
    ReadOnce(s, [Tick] + more, bound);
    assert TwoReadings() == [GetTime, Cpu, Cpu, Cpu] + ([Tick] + more);
    TickOnce(t, more, bound);
    ReadOnce(u, [], bound);
    NoEvents(u.(readings := u.readings + [Reading(GUARD, 100)]), bound);
    assert t.readings + [Reading(GUARD, 100)] == [Reading(GUARD - 1, 1099), Reading(GUARD, 100)];
  }

  lemma TickOnce(s: State, rest: seq<Event>, bound: nat)
    requires s.pc == Idle && s.cnt < RELOAD && s.cnt + 1 != bound
    ensures var t := s.(tick := s.tick + 1, cnt := s.cnt + 1);
            && Run(s, [Tick] + rest) == Run(t, rest)
            && (RunInTimeBy(s, [Tick] + rest, bound) <==> RunInTimeBy(t, rest, bound))
  {
    assert ([Tick] + rest)[1..] == rest;
  }

  lemma NoEvents(s: State, bound: nat)
    ensures Run(s, []) == s && RunInTimeBy(s, [], bound)
  {
  }

  /** A whole reading with no tick inside. */
  lemma ReadOnce(s: State, rest: seq<Event>, bound: nat)
    requires s.pc == Idle
    ensures var t := s.(readings := s.readings
                          + [Reading(s.tick, s.ms * 1000 + if s.cnt < GUARD && s.uif then s.cnt + 1000 else s.cnt)]);
            && Run(s, [GetTime, Cpu, Cpu, Cpu] + rest) == Run(t, rest)
            && (RunInTimeBy(s, [GetTime, Cpu, Cpu, Cpu] + rest, bound) <==> RunInTimeBy(t, rest, bound))
  {
    var e := [GetTime, Cpu, Cpu, Cpu] + rest;
    assert e[1..] == [Cpu, Cpu, Cpu] + rest && e[1..][1..] == [Cpu, Cpu] + rest;
    assert e[1..][1..][1..] == [Cpu] + rest && e[1..][1..][1..][1..] == rest;
    var s1 := Step(s, GetTime);
    var s2 := Step(s1, Cpu);
    var s3 := Step(s2, Cpu);
    var t := Step(s3, Cpu);
    assert Run(s3, e[1..][1..][1..]) == Run(t, rest);
    assert Run(s2, e[1..][1..]) == Run(t, rest);
    assert RunInTimeBy(s3, e[1..][1..][1..], bound) <==> RunInTimeBy(t, rest, bound);
    assert RunInTimeBy(s2, e[1..][1..], bound) <==> RunInTimeBy(t, rest, bound);
  }

  /** The clock never goes backwards, over all runs that serve every overflow before the counter reaches the bound,
      exactly when the bound is at most 100. */
  lemma ServiceBoundIff(bound: nat)
    requires bound > 0
    ensures (forall events: seq<Event> :: RunInTimeBy(START, events, bound) ==> NeverBackwards(Run(START, events).readings))
            <==> bound <= GUARD
  {
    hide Run, RunInTimeBy, Ideal;
    if bound <= GUARD {
      forall events: seq<Event> | RunInTimeBy(START, events, bound) ensures NeverBackwards(Run(START, events).readings) {
        TighterBound(START, events, bound);
        RunKeeps(START, events);
        FaithfulNeverBackwards(Run(START, events).readings);
      }
    } else {
      var events := Ticks(GUARD - 1) + TwoReadings();
      Unserved(0, GUARD - 1, TwoReadings(), bound);
      ReadTwice(bound);
      assert RunInTimeBy(START, events, bound);
      var r := Run(START, events).readings;
      assert r[0].value > r[1].value;
    }
  }

  lemma FaithfulNeverBackwards(readings: seq<Reading>)
    requires Faithful(readings)
    ensures NeverBackwards(readings)
  {
    hide Ideal;
    forall i, j | 0 <= i < j < |readings| ensures readings[i].value <= readings[j].value {
      IdealIsMonotone(readings[i].sample, readings[j].sample);
    }
  }

  // ----- delays

  const U32 := 0x1_0000_0000

  /** The polling loop of time_delay_ms and time_delay_us over the readings it gets: the number of polls after
      which it leaves, or |readings| while it is still waiting. */
  method TimeDelay(readings: seq<Reading>, tm: nat, unit: nat) returns (polls: nat)
    requires Faithful(readings) && |readings| > 0
    ensures polls <= |readings|
    ensures forall k :: 0 < k < polls ==> readings[k].value - readings[0].value < tm * unit % U32
    ensures polls < |readings| ==> readings[polls].value - readings[0].value >= tm * unit % U32
    ensures polls > 0
  {
    var target := tm * unit % U32;
    var time := readings[0].value;
    polls := 1;
    while polls < |readings| && readings[polls].value - time < target
      invariant 1 <= polls <= |readings|
      invariant forall k :: 0 < k < polls ==> readings[k].value - time < target
    {
      polls := polls + 1;
    }
  }

  /** The loop is left after poll k. */
  predicate LeavesAt(readings: seq<Reading>, k: nat, tm: nat, unit: nat) {
    0 < k < |readings| && readings[k].value - readings[0].value >= tm * unit % U32
  }

  /** A delay is never shorter than asked for exactly when the argument in microseconds fits 32 bits. */
  lemma DelayIsLongEnough(tm: nat, unit: nat)
    ensures (forall readings: seq<Reading>, k: nat :: Faithful(readings) && LeavesAt(readings, k, tm, unit) ==>
               readings[k].sample - readings[0].sample >= tm * unit)
            <==> tm * unit < 0x1_0000_0000
  {
    hide Ideal;
    var target := tm * unit % U32;
    forall readings: seq<Reading>, k: nat | Faithful(readings) && LeavesAt(readings, k, tm, unit)
      ensures readings[k].sample - readings[0].sample >= target
    {
      IdealIsMonotone(readings[0].sample, readings[k].sample);
    }
    if tm * unit >= U32 {
      var end := PERIOD * (target / 1000) + target % 1000;
      IdealOf(0, 0);
      IdealOf(target / 1000, target % 1000);
      var readings := [Reading(0, Ideal(0)), Reading(end, Ideal(end))];
      assert Faithful(readings) && LeavesAt(readings, 1, tm, unit);
      assert readings[1].sample - readings[0].sample < tm * unit;
    }
  }

  // ----- the driver

  /** The timer registers, the millisecond count, and the true time. */
  class Timer {
    var cnt: nat
    var uif: bool
    var ms: nat
    ghost var tick: nat
    ghost var periods: nat

    ghost function Now(): State
      reads this
    {
      State(tick, periods, cnt, uif, ms, Idle, [])
    }

    ghost predicate Valid()
      reads this
    {
      CountsPeriods(Now())
    }

    constructor ()
      ensures Valid() && Now() == START
    {
      cnt, uif, ms, tick, periods := 0, true, 0, 0, 0;
    }

    /** The hardware counts on for n ticks, none of them late for an overflow still to be served. */
    method Elapse(n: nat)
      requires Valid() && cnt + n < if uif then GUARD else PERIOD + GUARD
      modifies this`cnt, this`uif, this`tick, this`periods
      ensures Valid() && tick == old(tick) + n
      ensures uif <==> old(uif) || old(cnt) + n >= PERIOD
      ensures periods == old(periods) + if old(cnt) + n >= PERIOD then 1 else 0
    {
      for i := 0 to n
        invariant Valid() && tick == old(tick) + i
        invariant uif <==> old(uif) || old(cnt) + i >= PERIOD
        invariant periods == old(periods) + if old(cnt) + i >= PERIOD then 1 else 0
        invariant cnt == if old(cnt) + i >= PERIOD then old(cnt) + i - PERIOD else old(cnt) + i
      {
        if cnt == RELOAD {
          cnt, uif, periods := 0, true, periods + 1;
        } else {
          cnt := cnt + 1;
        }
        tick := tick + 1;
      }
    }

    /** TIM2_IRQHandler: afterwards the count alone is the number of update events. */
    method IrqHandler()
      requires Valid()
      modifies this`uif, this`ms
      ensures Valid() && !uif && ms == 1 + periods
    {
      if uif {
        uif := false;
        ms := ms + 1;
      }
    }

    /** _get_timer_time with `first` and `second` ticks passing after the loads of CNT and SR:
        it returns the ideal time of the moment CNT was read. */
    method GetTime(first: nat, second: nat) returns (time: nat)
      requires Valid() && cnt + first + second < if uif then GUARD else PERIOD + GUARD
      requires cnt < GUARD ==> cnt + first < PERIOD
      modifies this`cnt, this`uif, this`tick, this`periods
      ensures Valid() && tick == old(tick) + first + second
      ensures time == Ideal(old(tick))
    {
      hide Ideal;
      IdealOf(periods, cnt);
      var t := cnt;
      Elapse(first);
      if t < GUARD && uif {
        t := t + 1000;
      }
      Elapse(second);
      time := ms * 1000 + t;
    }

    /** timer_get_time_irq: serving the update first changes neither the time nor the number of updates counted. */
    method GetTimeIrq(first: nat, second: nat) returns (time: nat)
      requires Valid() && cnt + first + second < if uif then GUARD else PERIOD + GUARD
      requires cnt < GUARD ==> cnt + first < PERIOD
      modifies this
      ensures Valid() && tick == old(tick) + first + second
      ensures time == Ideal(old(tick))
    {
      hide Ideal;
      IrqHandler();
      time := GetTime(first, second);
    }
  }
}
