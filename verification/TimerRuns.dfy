/**
 What holds of a timer in every run: one live tick, stale ticks without effect for ever, and callbacks
 that keep their interval.
 */
module TimerRuns {
  import opened RecurringTimer

  /**
   An active timer has exactly one live tick of its generation, no generation has two, and a
   failed timer is paused.
   */
  lemma {:induction false} OneLiveTick(interval: Time, fn: Callback, now: Time, actions: seq<Action>, g: Generation)
    requires interval <= REP_MAX
    ensures var s := Run(Initial(interval, fn, now), actions);
      && Live(s, g) <= 1
      && (s.t.active ==> s.t.generation.Some? && Live(s, s.t.generation.value) == 1)
      && (s.t.failure.Some? ==> !s.t.active)
  {
    hide Run, QueuedOf;
    RunsKeepInv(interval, fn, now, actions);
    assert LiveOk(Run(Initial(interval, fn, now), actions), g);
  }

  /**
   Every callback run is of the callback asked for last, and a full interval after the last
   start, resumption or run; no deadline is beyond the clock's range.
   */
  lemma {:induction false} CallsKeepTheInterval(
    interval: Time, fn: Callback, now: Time, actions: seq<Action>, c: Call, tick: Tick)
    requires interval <= REP_MAX
    ensures var s := Run(Initial(interval, fn, now), actions);
      && (c in s.calls ==> c.fn == c.wanted && c.gap >= c.interval)
      && (tick in s.t.ticks ==> tick.deadline <= REP_MAX)
  {
    hide Run, QueuedOf;
    RunsKeepInv(interval, fn, now, actions);
  }

  // ---------------------------------------------------------------- stale generations

  /** A generation that was handed out, but is not the active one. */
  predicate Stale(t: Timer, g: Generation) {
    g < t.unused && !Current(t, g)
  }

  /** `u` records nothing of generation `g` beyond what `s` records. */
  predicate NothingNewOf(s: State, u: State, g: Generation) {
    && s.calls <= u.calls && s.schedulings <= u.schedulings && s.failures <= u.failures
    && (forall i :: |s.calls| <= i < |u.calls| ==> u.calls[i].g != g)
    && (forall i :: |s.schedulings| <= i < |u.schedulings| ==> u.schedulings[i] != g)
    && (forall i :: |s.failures| <= i < |u.failures| ==> u.failures[i] != g)
  }

  lemma StaleOneStep(s: State, a: Action, g: Generation)
    requires Stale(s.t, g)
    ensures Stale(Next(s, a).t, g) && NothingNewOf(s, Next(s, a), g)
  {
  }

  lemma NothingNewTwice(s: State, u: State, v: State, g: Generation)
    requires NothingNewOf(s, u, g) && NothingNewOf(u, v, g)
    ensures NothingNewOf(s, v, g)
  {
  }

  /**
   A stale generation stays stale under every continuation of starts, stops, resumptions and
   ticks: none of its ticks ever calls, schedules or records a failure again.
   */
  lemma {:induction false} StaleForever(s: State, actions: seq<Action>, g: Generation)
    requires Stale(s.t, g)
    ensures Stale(Run(s, actions).t, g) && NothingNewOf(s, Run(s, actions), g)
  {
    if actions != [] {
      hide Next, Stale, NothingNewOf;
      var before := actions[..|actions| - 1];
      StaleForever(s, before, g);
      StaleOneStep(Run(s, before), actions[|actions| - 1], g);
      NothingNewTwice(s, Run(s, before), Run(s, actions), g);
    } else {
      hide Next;
    }
  }

  /** Whenever later the worker goes on with a tick of that generation, it leaves the timer as it is. */
  lemma {:induction false} StaleTickChangesNothing(s: State, actions: seq<Action>, a: Action, g: Generation)
    requires Stale(s.t, g)
    ensures var u := Run(s, actions);
      !u.worker.Idle? && u.worker.g == g && (a.Deliver? || a.Check? || a.EndCall? || a.Reschedule? || a.Store?) ==>
        Next(u, a).t == u.t
  {
    hide Run;
    StaleForever(s, actions, g);
  }

  /** Every queued tick of a reachable state is of the active generation, or stale for ever. */
  lemma {:induction false} QueuedTicksAreCurrentOrStale(
    interval: Time, fn: Callback, now: Time, actions: seq<Action>, tick: Tick)
    requires interval <= REP_MAX
    ensures var s := Run(Initial(interval, fn, now), actions);
      tick in s.t.ticks ==> Current(s.t, tick.generation) || Stale(s.t, tick.generation)
  {
    hide Run;
    RunsKeepInv(interval, fn, now, actions);
    var s := Run(Initial(interval, fn, now), actions);
    if tick in s.t.ticks && tick.generation >= s.t.unused {
      assert LiveOk(s, tick.generation);
      NoneQueued(s.t.ticks, tick.generation);
    }
  }

  /** After `stop` nothing is called, scheduled or recorded until the timer is started or resumed. */
  lemma {:induction false} StoppedStaysQuiet(s: State, actions: seq<Action>)
    requires !s.t.active && forall i :: 0 <= i < |actions| ==> !actions[i].Start? && !actions[i].Resume?
    ensures var u := Run(s, actions);
      && !u.t.active && u.calls == s.calls && u.schedulings == s.schedulings && u.failures == s.failures
      && u.t.failure == s.t.failure
  {
    if actions != [] {
      var before := actions[..|actions| - 1];
      StoppedStaysQuiet(s, before);
      hide Run;
      QuietStep(Run(s, before), actions[|actions| - 1]);
      RunLast(s, actions);
    }
  }

  lemma RunLast(s: State, actions: seq<Action>)
    requires actions != []
    ensures Run(s, actions) == Next(Run(s, actions[..|actions| - 1]), actions[|actions| - 1])
  {
  }

  lemma QuietStep(s: State, a: Action)
    requires !s.t.active && !a.Start? && !a.Resume?
    ensures var u := Next(s, a);
      && !u.t.active && u.calls == s.calls && u.schedulings == s.schedulings && u.failures == s.failures
      && u.t.failure == s.t.failure
  {
  }
}
