/**
 The recurring timer: a generation token decides which queued tick is alive, across `start`,
 `stop`, `resume` and the two locked parts of a tick with the callback between them.

 `TimerObject` is the object; the functions on `Timer` values say what its critical sections do.
 `State` adds the worker, the clock and the record of what ticks have done. Queued ticks may be
 delivered in any order once they are due, which includes the order of the scheduled pipe.
 */
module RecurringTimer {
  import opened Common

  type Time = int
  type Generation = nat
  type Callback = nat

  const REP_MAX: int := 0x7fff_ffff_ffff_ffff

  datatype Tick = Tick(deadline: Time, generation: Generation)

  /** `unused` is the next unused generation; `failure` remembers which generation failed. */
  datatype Timer = Timer(
    active: bool, generation: Option<Generation>, failure: Option<Generation>, interval: Time, fn: Callback,
    ticks: seq<Tick>, down: bool, unused: Generation)

  datatype Outcome = Done | Overflow | PipeDown | Rethrown

  // ---------------------------------------------------------------- critical sections

  predicate DeadlineOverflows(now: Time, interval: Time) {
    now > 0 && interval > REP_MAX - now
  }

  predicate Current(t: Timer, g: Generation) {
    t.active && t.generation == Some(g)
  }

  /** Every attempt makes a new generation, used or not. */
  function Started(t: Timer, now: Time, interval: Time, fn: Option<Callback>): (r: (Timer, Outcome)) {
    var u := t.(unused := t.unused + 1);
    if DeadlineOverflows(now, interval) then (u, Overflow)
    else if t.down then (u, PipeDown)
    else
      (u.(ticks := t.ticks + [Tick(now + interval, t.unused)], fn := if fn.Some? then fn.value else t.fn,
          generation := Some(t.unused), failure := None, active := true, interval := interval), Done)
  }

  function Resumed(t: Timer, now: Time): (r: (Timer, Outcome)) {
    if t.active then (t, Done)
    else if t.failure.Some? then (t, Rethrown)
    else
      var u := t.(unused := t.unused + 1);
      if DeadlineOverflows(now, t.interval) then (u, Overflow)
      else if t.down then (u, PipeDown)
      else
        var ticks := t.ticks + [Tick(now + t.interval, t.unused)];
        (u.(ticks := ticks, generation := Some(t.unused), active := true), Done)
  }

  /** The callback a due tick may call, if it is alive. */
  function Admitted(t: Timer, g: Generation): (r: Option<Callback>) {
    if Current(t, g) then Some(t.fn) else None
  }

  function FailureStored(t: Timer, g: Generation): (r: Timer) {
    if Current(t, g) then t.(active := false, failure := Some(g)) else t
  }

  /** The second locked part; an overflow leaves the lock before it is stored. */
  function Rescheduled(t: Timer, g: Generation, now: Time, writeFails: bool): (r: (Timer, Outcome)) {
    if !Current(t, g) then (t, Done)
    else if DeadlineOverflows(now, t.interval) then (t, Overflow)
    else if t.down || writeFails then (FailureStored(t, g), PipeDown)
    else (t.(ticks := t.ticks + [Tick(now + t.interval, g)]), Done)
  }

  /** One tick was added, of a generation that no queued tick had, due an interval from now within the clock's range. */
  predicate OneNewTick(before: seq<Tick>, after: seq<Tick>, g: Generation, now: Time, interval: Time) {
    && after == before + [Tick(now + interval, g)]
    && (forall tick :: tick in before ==> tick.generation != g)
    && (interval <= REP_MAX ==> now + interval <= REP_MAX)
  }

  /** How many queued ticks carry the generation. */
  function QueuedOf(ticks: seq<Tick>, g: Generation): (n: nat) {
    if ticks == [] then 0 else (if ticks[0].generation == g then 1 else 0) + QueuedOf(ticks[1..], g)
  }

  lemma {:induction false} QueuedOfAppend(ticks: seq<Tick>, tick: Tick, g: Generation)
    ensures QueuedOf(ticks + [tick], g) == QueuedOf(ticks, g) + (if tick.generation == g then 1 else 0)
  {
    if ticks != [] {
      assert (ticks + [tick])[1..] == ticks[1..] + [tick];
      QueuedOfAppend(ticks[1..], tick, g);
    }
  }

  class TimerObject {
    var active: bool
    var generation: Option<Generation>
    var failure: Option<Generation>
    var interval: Time
    var fn: Callback
    var ticks: seq<Tick>
    var down: bool
    var unused: Generation

    function Value(): (t: Timer)
      reads this
    {
      Timer(active, generation, failure, interval, fn, ticks, down, unused)
    }

    /** Only generations that were handed out are in use, and a failed timer is paused. */
    predicate Valid()
      reads this
    {
      && (generation.Some? ==> generation.value < unused)
      && (forall tick :: tick in ticks ==> tick.generation < unused)
      && (failure.Some? ==> !active)
    }

    /** Constructed with its callback and interval, then resumed. */
    constructor (interval: Time, fn: Callback)
      ensures Valid() && Value() == New(interval, fn)
    {
      active, generation, failure, this.interval, this.fn := false, None, None, interval, fn;
      ticks, down, unused := [], false, 0;
    }

    method Start(now: Time, newInterval: Time, newFn: Option<Callback>) returns (r: Outcome)
      requires Valid()
      modifies this
      ensures Valid()
      ensures r == Overflow <==> now > 0 && now + newInterval > REP_MAX
      ensures r == PipeDown <==> old(down) && !(now > 0 && now + newInterval > REP_MAX)
      ensures r == Done ==>
        && active && failure == None && generation.Some? && generation != old(generation) && down == old(down)
        && OneNewTick(old(ticks), ticks, generation.value, now, newInterval)
        && interval == newInterval && fn == (if newFn.Some? then newFn.value else old(fn))
      ensures r != Rethrown
      ensures r != Done ==> Value() == old(Value()).(unused := unused)
      ensures (Value(), r) == Started(old(Value()), now, newInterval, newFn)
    {
      var g := unused;
      unused := unused + 1;
      if DeadlineOverflows(now, newInterval) {
        return Overflow;
      }
      if down {
        return PipeDown;
      }
      ticks := ticks + [Tick(now + newInterval, g)];
      if newFn.Some? {
        fn := newFn.value;
      }
      generation := Some(g);
      failure := None;
      active := true;
      interval := newInterval;
      r := Done;
    }

    method Stop()
      requires Valid()
      modifies this
      ensures Valid()
      ensures Value() == old(Value()).(active := false)
    {
      active := false;
    }

    method Resume(now: Time) returns (r: Outcome)
      requires Valid()
      modifies this
      ensures Valid()
      ensures r == Done ==> active && failure == None && interval == old(interval) && fn == old(fn)
      ensures r == Done && !old(active) ==>
        && generation.Some? && generation != old(generation)
        && OneNewTick(old(ticks), ticks, generation.value, now, interval)
      ensures r != Done || old(active) ==> Value() == old(Value()).(unused := unused)
      ensures r == Rethrown <==> !old(active) && old(failure).Some?
      ensures r == Overflow <==> !old(active) && old(failure).None? && now > 0 && now + old(interval) > REP_MAX
      ensures r == PipeDown <==>
        !old(active) && old(failure).None? && !(now > 0 && now + old(interval) > REP_MAX) && old(down)
      ensures (Value(), r) == Resumed(old(Value()), now)
    {
      if active {
        return Done;
      }
      if failure.Some? {
        return Rethrown;
      }
      var g := unused;
      unused := unused + 1;
      if DeadlineOverflows(now, interval) {
        return Overflow;
      }
      if down {
        return PipeDown;
      }
      ticks := ticks + [Tick(now + interval, g)];
      generation := Some(g);
      active := true;
      r := Done;
    }

    /** The callback is to be run exactly for a tick of the active generation. */
    method BeginTick(g: Generation) returns (callback: Option<Callback>)
      ensures callback.Some? <==> active && generation == Some(g)
      ensures callback.Some? ==> callback.value == fn
      ensures callback == Admitted(Value(), g)
    {
      if !active || generation != Some(g) {
        return None;
      }
      callback := Some(fn);
    }

    /**
     The end of a tick of `g`. A generation that is active and stays so gets one more tick, or an
     overflow is still to be stored; no other generation gets one, and a stale tick changes nothing.
     */
    method EndTick(g: Generation, now: Time, writeFails: bool) returns (r: Outcome)
      requires Valid()
      modifies this
      ensures Valid()
      ensures forall h ::
        QueuedOf(ticks, h) == old(QueuedOf(ticks, h)) + (if h == g && Current(Value(), g) && r == Done then 1 else 0)
      ensures r == Overflow <==> old(Current(Value(), g)) && now > 0 && now + interval > REP_MAX
      ensures r == Overflow ==> Value() == old(Value())
      ensures r == PipeDown <==>
        old(Current(Value(), g)) && !(now > 0 && now + interval > REP_MAX) && (old(down) || writeFails)
      ensures r == PipeDown ==> !active && failure == Some(g)
      ensures r == Done && old(Current(Value(), g)) ==>
        Current(Value(), g) && ticks == old(ticks) + [Tick(now + interval, g)]
      ensures !old(Current(Value(), g)) ==> Value() == old(Value())
      ensures (Value(), r) == Rescheduled(old(Value()), g, now, writeFails)
    {
      if !active || generation != Some(g) {
        return Done;
      }
      if DeadlineOverflows(now, interval) {
        return Overflow;
      }
      if down || writeFails {
        StoreFailure(g);
        return PipeDown;
      }
      forall h {
        QueuedOfAppend(ticks, Tick(now + interval, g), h);
      }
      ticks := ticks + [Tick(now + interval, g)];
      r := Done;
    }

    method StoreFailure(g: Generation)
      requires Valid()
      modifies this
      ensures Valid() && !Current(Value(), g)
      ensures Value() == FailureStored(old(Value()), g)
    {
      if active && generation == Some(g) {
        active := false;
        failure := Some(g);
      }
    }
  }

  function New(interval: Time, fn: Callback): (t: Timer) {
    Timer(false, None, None, interval, fn, [], false, 0)
  }

  // ---------------------------------------------------------------- worker, clock and record

  datatype Worker =
    | Idle
    | Received(g: Generation)
    | Calling(g: Generation)
    | Returned(g: Generation)
    | Failing(g: Generation)

  /** A callback run by a tick: how long after the start or the previous run, and what its client had asked for. */
  datatype Call = Call(g: Generation, fn: Callback, wanted: Callback, gap: Time, interval: Time)

  /**
   `calls`, `schedulings` and `failures` record what ticks did and of which generation they were;
   `since` is when the timer last started, resumed or called; `wanted` and `period` are
   what clients asked for last.
   */
  datatype State = State(
    t: Timer, worker: Worker, clock: Time, calls: seq<Call>, schedulings: seq<Generation>, failures: seq<Generation>,
    since: Time, wanted: Callback, period: Time)

  datatype CallEnd = Normal | StandardException | OtherException

  datatype Action =
    | Start(interval: Time, fn: Option<Callback>)
    | Stop
    | Resume
    | Destroy
    | Deliver(i: nat)
    | Check
    | EndCall(end: CallEnd)
    | Reschedule(writeFails: bool)
    | Store
    | Advance(elapsed: nat)

  function Initial(interval: Time, fn: Callback, now: Time): (s: State) {
    State(New(interval, fn), Idle, now, [], [], [], now, fn, interval)
  }

  function WorkerStep(s: State, a: Action): (u: State) {
    match (a, s.worker)
    case (Deliver(i), Idle) =>
      if i < |s.t.ticks| && s.t.ticks[i].deadline <= s.clock then
        s.(t := s.t.(ticks := s.t.ticks[..i] + s.t.ticks[i + 1..]), worker := Received(s.t.ticks[i].generation))
      else s
    case (Check, Received(g)) =>
      var callback := Admitted(s.t, g);
      if callback.Some? then
        s.(worker := Calling(g), since := s.clock,
           calls := s.calls + [Call(g, callback.value, s.wanted, s.clock - s.since, s.period)])
      else s.(worker := Idle)
    case (EndCall(end), Calling(g)) => s.(worker := if end == OtherException then Failing(g) else Returned(g))
    case (Reschedule(writeFails), Returned(g)) =>
      var (t, r) := Rescheduled(s.t, g, s.clock, writeFails);
      if r == Overflow then s.(worker := Failing(g))
      else
        s.(t := t, worker := Idle,
           schedulings := if |t.ticks| > |s.t.ticks| then s.schedulings + [g] else s.schedulings,
           failures := if t.failure != s.t.failure then s.failures + [g] else s.failures)
    case (Store, Failing(g)) =>
      var t := FailureStored(s.t, g);
      s.(t := t, worker := Idle,
         failures := if t.failure != s.t.failure then s.failures + [g] else s.failures)
    case _ => s
  }

  function Next(s: State, a: Action): (u: State) {
    match a
    case Start(interval, fn) =>
      if !(0 < interval <= REP_MAX) then s
      else
        var (t, r) := Started(s.t, s.clock, interval, fn);
        if r != Done then s.(t := t)
        else s.(t := t, since := s.clock, period := interval, wanted := if fn.Some? then fn.value else s.wanted)
    case Stop => s.(t := s.t.(active := false))
    case Resume => s.(t := Resumed(s.t, s.clock).0, since := if s.t.active then s.since else s.clock)
    case Destroy => s.(t := s.t.(active := false, down := true))
    case Advance(elapsed) => s.(clock := s.clock + elapsed)
    case _ => WorkerStep(s, a)
  }

  function Run(start: State, actions: seq<Action>): (u: State) {
    if actions == [] then start else Next(Run(start, actions[..|actions| - 1]), actions[|actions| - 1])
  }

  // ---------------------------------------------------------------- the invariant

  function InWorker(w: Worker, g: Generation): (n: nat) {
    if !w.Idle? && w.g == g then 1 else 0
  }

  /** Queued ticks of the generation, and the one being processed. */
  function Live(s: State, g: Generation): (n: nat) {
    QueuedOf(s.t.ticks, g) + InWorker(s.worker, g)
  }

  ghost predicate AtMostOneEach(s: State) {
    forall g :: LiveOk(s, g)
  }

  predicate LiveOk(s: State, g: Generation) {
    Live(s, g) <= 1 && (g >= s.t.unused ==> Live(s, g) == 0)
  }

  predicate ActiveOk(s: State) {
    && (s.t.active ==> s.t.generation.Some? && Live(s, s.t.generation.value) == 1 && s.t.failure == None && !s.t.down)
    && (s.t.generation.Some? ==> s.t.generation.value < s.t.unused)
  }

  /** The live tick is due a full interval after the last start, resumption or call, within the clock's range. */
  predicate DueInTime(s: State) {
    && s.t.interval == s.period <= REP_MAX && s.t.fn == s.wanted && s.since <= s.clock
    && (forall i :: 0 <= i < |s.t.ticks| ==> s.t.ticks[i].deadline <= REP_MAX)
    && (s.t.active && s.t.generation.Some? ==>
          && (forall i :: 0 <= i < |s.t.ticks| && s.t.ticks[i].generation == s.t.generation.value ==>
                s.since + s.period <= s.t.ticks[i].deadline <= s.clock + s.period)
          && (s.worker == Received(s.t.generation.value) ==> s.clock >= s.since + s.period))
  }

  predicate CallsOk(calls: seq<Call>) {
    forall i :: 0 <= i < |calls| ==>
      calls[i].fn == calls[i].wanted && calls[i].gap >= calls[i].interval
  }

  ghost predicate Inv(s: State) {
    AtMostOneEach(s) && ActiveOk(s) && DueInTime(s) && CallsOk(s.calls)
  }

  // ---------------------------------------------------------------- every step keeps it

  lemma {:induction false} QueuedOfRemoval(ticks: seq<Tick>, i: nat, g: Generation)
    requires i < |ticks|
    ensures QueuedOf(ticks, g) == QueuedOf(ticks[..i] + ticks[i + 1..], g) + (if ticks[i].generation == g then 1 else 0)
  {
    var rest := ticks[..i] + ticks[i + 1..];
    if i == 0 {
      assert rest == ticks[1..];
    } else {
      assert ticks[1..][..i - 1] + ticks[1..][i..] == rest[1..];
      QueuedOfRemoval(ticks[1..], i - 1, g);
    }
  }

  lemma {:induction false} NoneQueued(ticks: seq<Tick>, g: Generation)
    requires QueuedOf(ticks, g) == 0
    ensures forall i :: 0 <= i < |ticks| ==> ticks[i].generation != g
  {
    if ticks != [] {
      NoneQueued(ticks[1..], g);
      assert forall i :: 0 < i < |ticks| ==> ticks[i] == ticks[1..][i - 1];
    }
  }

  lemma ClientKeeps(s: State, a: Action)
    requires Inv(s) && (a.Start? || a.Stop? || a.Resume? || a.Destroy? || a.Advance?)
    ensures Inv(Next(s, a))
  {
    hide QueuedOf;
    var u := Next(s, a);
    forall g ensures LiveOk(u, g) {
      assert LiveOk(s, g);
      if |u.t.ticks| > |s.t.ticks| {
        QueuedOfAppend(s.t.ticks, u.t.ticks[|s.t.ticks|], g);
      }
    }
    if |u.t.ticks| > |s.t.ticks| {
      assert LiveOk(s, s.t.unused);
      NoneQueued(s.t.ticks, s.t.unused);
      QueuedOfAppend(s.t.ticks, u.t.ticks[|s.t.ticks|], s.t.unused);
    }
  }

  lemma DeliverKeeps(s: State, i: nat)
    requires Inv(s) && s.worker == Idle && i < |s.t.ticks|
    ensures Inv(WorkerStep(s, Deliver(i)))
  {
    hide QueuedOf;
    var u := WorkerStep(s, Deliver(i));
    forall g ensures Live(u, g) == Live(s, g) && LiveOk(u, g) {
      assert LiveOk(s, g);
      QueuedOfRemoval(s.t.ticks, i, g);
    }
  }

  lemma RescheduleKeeps(s: State, a: Action)
    requires Inv(s) && s.worker.Returned? && a.Reschedule?
    ensures Inv(WorkerStep(s, a))
  {
    hide QueuedOf;
    var u := WorkerStep(s, a);
    var tick := Tick(s.clock + s.t.interval, s.worker.g);
    forall g ensures LiveOk(u, g) && (Current(s.t, g) && u.t.active ==> Live(u, g) == Live(s, g)) {
      assert LiveOk(s, g);
      QueuedOfAppend(s.t.ticks, tick, g);
    }
  }

  lemma TickKeeps(s: State, a: Action)
    requires Inv(s) && (a.Check? || a.EndCall? || a.Store?)
    ensures Inv(WorkerStep(s, a))
  {
    hide QueuedOf;
    var u := WorkerStep(s, a);
    forall g ensures LiveOk(u, g) && (Current(u.t, g) ==> Live(u, g) == Live(s, g)) {
      assert LiveOk(s, g);
    }
    if s.worker.Received? {
      assert LiveOk(s, s.worker.g);
      NoneQueued(s.t.ticks, s.worker.g);
    }
  }

  lemma StepKeeps(s: State, a: Action)
    requires Inv(s)
    ensures Inv(Next(s, a))
  {
    match a
    case Deliver(i) => if s.worker == Idle && i < |s.t.ticks| { DeliverKeeps(s, i); }
    case Reschedule(_) => if s.worker.Returned? { RescheduleKeeps(s, a); }
    case Check => TickKeeps(s, a);
    case EndCall(_) => TickKeeps(s, a);
    case Store => TickKeeps(s, a);
    case _ => ClientKeeps(s, a);
  }

  lemma {:induction false} RunsKeepInv(interval: Time, fn: Callback, now: Time, actions: seq<Action>)
    requires interval <= REP_MAX
    ensures Inv(Run(Initial(interval, fn, now), actions))
  {
    var start := Initial(interval, fn, now);
    if actions == [] {
      forall g ensures LiveOk(start, g) {
      }
    } else {
      hide Inv, Next;
      RunsKeepInv(interval, fn, now, actions[..|actions| - 1]);
      StepKeeps(Run(start, actions[..|actions| - 1]), actions[|actions| - 1]);
    }
  }
}
