/**
 A timer that is started goes on: it stays active until somebody or something stops it, and it
 calls back again and again, one interval after the other.
 */
module TimerProgress {
  import opened Common
  import opened RecurringTimer
  import opened TimerRuns

  // ---------------------------------------------------------------- staying active

  /** Nothing in this step stops or destroys the timer, or makes its worker fail. */
  predicate Benign(s: State, a: Action) {
    && !a.Stop? && !a.Destroy? && a != EndCall(OtherException) && a != Reschedule(true)
    && (a.Reschedule? ==> s.clock <= 0 || s.clock + s.t.interval <= REP_MAX)
  }

  predicate Healthy(s: State) {
    s.t.active && !s.t.down && !s.worker.Failing?
  }

  lemma HealthyStep(s: State, a: Action)
    requires Healthy(s) && Benign(s, a)
    ensures Healthy(Next(s, a)) && (a.Start? || Next(s, a).t.generation == s.t.generation)
  {
  }

  /** An active timer stays active, and of the same generation until somebody starts it anew. */
  lemma {:induction false} ActiveStaysActive(s: State, actions: seq<Action>)
    requires Healthy(s)
    requires forall k :: 0 <= k < |actions| ==> Benign(Run(s, actions[..k]), actions[k])
    ensures Healthy(Run(s, actions))
    ensures (forall a :: a in actions ==> !a.Start?) ==> Run(s, actions).t.generation == s.t.generation
  {
    if actions != [] {
      hide Next, Healthy, Benign;
      var before, last := actions[..|actions| - 1], actions[|actions| - 1];
      forall k | 0 <= k < |before| ensures Benign(Run(s, before[..k]), before[k]) {
        assert before[..k] == actions[..k];
      }
      ActiveStaysActive(s, before);
      HealthyStep(Run(s, before), last);
    }
  }

  // ---------------------------------------------------------------- calling again

  lemma {:induction false} SomeTick(ticks: seq<Tick>, g: Generation) returns (i: nat)
    requires QueuedOf(ticks, g) > 0
    ensures i < |ticks| && ticks[i].generation == g
  {
    if ticks[0].generation == g {
      i := 0;
    } else {
      i := SomeTick(ticks[1..], g);
      i := i + 1;
    }
  }

  /** One more step after a run. */
  lemma Then(s: State, actions: seq<Action>, a: Action)
    ensures Run(s, actions + [a]) == Next(Run(s, actions), a)
  {
    assert (actions + [a])[..|actions|] == actions;
  }

  /** The steps of one round: wait an interval, deliver the live tick, run its callback, and end the tick. */
  function Round(interval: nat, i: nat, end: CallEnd): (actions: seq<Action>) {
    [] + [Advance(interval)] + [Deliver(i)] + [Check] + [EndCall(end)] + [Reschedule(false)]
  }

  /** An idle worker with an active timer. */
  predicate Ready(s: State) {
    s.t.active && s.worker == Idle
  }

  /**
   Waiting one interval is enough for the next callback; afterwards, unless the callback failed, the timer
   is active again and its next tick is due exactly one interval later.
   */
  lemma CallsAgain(s: State, end: CallEnd) returns (i: nat)
    requires Inv(s) && Ready(s) && 0 <= s.t.interval && end != OtherException
    requires s.clock + s.t.interval <= 0 || s.clock + 2 * s.t.interval <= REP_MAX
    ensures var g, u := s.t.generation.value, Run(s, Round(s.t.interval, i, end));
      && s.t.generation.Some? && Ready(u) && u.t.generation == s.t.generation && u.clock == s.clock + s.t.interval
      && |u.calls| == |s.calls| + 1 && s.calls == u.calls[..|s.calls|]
      && u.calls[|s.calls|].g == g && u.calls[|s.calls|].fn == s.t.fn
      && u.t.fn == s.t.fn && u.t.interval == s.t.interval
      && Tick(u.clock + u.t.interval, g) in u.t.ticks
  {
    hide Run, QueuedOf;
    var g := s.t.generation.value;
    assert LiveOk(s, g);
    i := SomeTick(s.t.ticks, g);
    var d := s.t.interval;
    Then(s, [], Advance(d));
    Then(s, [] + [Advance(d)], Deliver(i));
    Then(s, [] + [Advance(d)] + [Deliver(i)], Check);
    Then(s, [] + [Advance(d)] + [Deliver(i)] + [Check], EndCall(end));
    Then(s, [] + [Advance(d)] + [Deliver(i)] + [Check] + [EndCall(end)], Reschedule(false));
    assert Run(s, []) == s by { Nothing(s); }
  }

  lemma Nothing(s: State)
    ensures Run(s, []) == s
  {
  }

  lemma {:induction false} RunKeepsInv(s: State, actions: seq<Action>)
    requires Inv(s)
    ensures Inv(Run(s, actions))
  {
    if actions != [] {
      hide Inv, Next;
      RunKeepsInv(s, actions[..|actions| - 1]);
      StepKeeps(Run(s, actions[..|actions| - 1]), actions[|actions| - 1]);
    }
  }

  lemma {:induction false} RunThen(s: State, a: seq<Action>, b: seq<Action>)
    ensures Run(s, a + b) == Run(Run(s, a), b)
  {
    if b == [] {
      assert a + b == a;
    } else {
      hide Next;
      RunThen(s, a, b[..|b| - 1]);
      assert (a + b)[..|a + b| - 1] == a + b[..|b| - 1];
    }
  }

  /** Left alone with time going by, a timer calls back as often as the clock's range allows. */
  lemma {:induction false} CallsForEver(s: State, n: nat) returns (actions: seq<Action>)
    requires Inv(s) && Ready(s) && 0 <= s.t.interval && 0 <= s.clock && s.clock + (n + 1) * s.t.interval <= REP_MAX
    ensures var u := Run(s, actions);
      && Ready(u) && u.t.generation == s.t.generation && u.clock == s.clock + n * s.t.interval
      && |u.calls| == |s.calls| + n && s.calls == u.calls[..|s.calls|]
      && forall k :: |s.calls| <= k < |u.calls| ==> u.calls[k].fn == s.t.fn
    decreases n
  {
    if n == 0 {
      actions := [];
    } else {
      hide Run, Inv;
      assert s.clock + 2 * s.t.interval <= s.clock + (n + 1) * s.t.interval;
      var i := CallsAgain(s, Normal);
      var round := Round(s.t.interval, i, Normal);
      var u := Run(s, round);
      RunKeepsInv(s, round);
      assert u.clock + n * u.t.interval == s.clock + (n + 1) * s.t.interval;
      var rest := CallsForEver(u, n - 1);
      actions := round + rest;
      RunThen(s, round, rest);
    }
  }

  // ---------------------------------------------------------------- what clients ask for

  /** The timer runs with one new tick that is due one interval from now. */
  predicate RunsAnew(s: State, u: State, interval: Time, fn: Callback) {
    && u.t.active && u.t.failure == None && u.t.interval == interval && u.t.fn == fn
    && u.t.generation.Some? && u.t.generation.value >= s.t.unused
    && u.t.ticks == s.t.ticks + [Tick(s.clock + interval, u.t.generation.value)]
  }

  /** A timer that is not destroyed can be started in any state, with any interval within the clock's range. */
  lemma StartRuns(s: State, interval: Time, fn: Option<Callback>)
    requires Inv(s)
    ensures var u := Next(s, Start(interval, fn));
      var inRange := 0 < interval <= REP_MAX && (s.clock <= 0 || s.clock + interval <= REP_MAX);
      && (inRange && !s.t.down ==> RunsAnew(s, u, interval, if fn.Some? then fn.value else s.t.fn))
      && (!inRange || s.t.down ==> u.t == s.t.(unused := u.t.unused))
      && u.worker == s.worker && u.calls == s.calls && u.clock == s.clock
  {
  }

  /** A paused timer without a failure goes on with its interval and callback; an active one is left as it is. */
  lemma ResumeRuns(s: State)
    requires Inv(s)
    ensures var u := Next(s, Resume);
      var inRange := s.clock <= 0 || s.clock + s.t.interval <= REP_MAX;
      && (!s.t.active && s.t.failure == None && !s.t.down && inRange ==> RunsAnew(s, u, s.t.interval, s.t.fn))
      && (s.t.active || s.t.failure.Some? ==> u.t == s.t)
      && (s.t.down || !inRange ==> u.t == s.t.(unused := u.t.unused))
  {
    hide AtMostOneEach, Live;
  }

  /** `stop` pauses at once, and a paused timer that has not failed can be resumed. */
  lemma StopPauses(s: State)
    requires Inv(s)
    ensures var u := Next(s, Stop);
      && !u.t.active && u == s.(t := s.t.(active := false))
      && (s.t.failure == None && !s.t.down && (s.clock <= 0 || s.clock + s.t.interval <= REP_MAX) ==>
            RunsAnew(u, Next(u, Resume), s.t.interval, s.t.fn))
  {
    hide AtMostOneEach, Live;
  }

  /** After its destruction a timer is never active again, and nothing is scheduled or called. */
  lemma {:induction false} DestroyedForEver(s: State, actions: seq<Action>)
    ensures var u := Run(Next(s, Destroy), actions);
      !u.t.active && u.t.down && u.calls == s.calls && u.schedulings == s.schedulings && u.failures == s.failures
  {
    DownForEver(Next(s, Destroy), actions);
  }

  lemma {:induction false} DownForEver(s: State, actions: seq<Action>)
    requires s.t.down && !s.t.active
    ensures var u := Run(s, actions);
      !u.t.active && u.t.down && u.calls == s.calls && u.schedulings == s.schedulings && u.failures == s.failures
  {
    if actions != [] {
      DownForEver(s, actions[..|actions| - 1]);
      hide Run;
      DownOneStep(Run(s, actions[..|actions| - 1]), actions[|actions| - 1]);
      RunLast(s, actions);
    }
  }

  lemma DownOneStep(s: State, a: Action)
    requires s.t.down && !s.t.active
    ensures var u := Next(s, a);
      !u.t.active && u.t.down && u.calls == s.calls && u.schedulings == s.schedulings && u.failures == s.failures
  {
  }

  // ---------------------------------------------------------------- failing

  /** A next tick that cannot be represented, or cannot be written, pauses the timer with that failure. */
  lemma NoNextTickPauses(s: State, g: Generation, writeFails: bool)
    requires Inv(s) && s.worker == Returned(g) && s.t.active && s.t.generation == Some(g)
    requires writeFails || (s.clock > 0 && s.clock + s.t.interval > REP_MAX)
    ensures var u := Next(Next(s, Reschedule(writeFails)), Store);
      && !u.t.active && u.t.failure == Some(g) && u.worker == Idle && u.failures == s.failures + [g]
      && u.t.ticks == s.t.ticks
  {
    hide AtMostOneEach, Live;
  }

  /** A callback that throws something else pauses the timer; resuming rethrows until it is started again. */
  lemma OtherExceptionPauses(s: State, g: Generation)
    requires Inv(s) && s.worker == Calling(g) && s.t.active && s.t.generation == Some(g)
    ensures var u := Next(Next(s, EndCall(OtherException)), Store);
      && !u.t.active && u.t.failure == Some(g) && u.worker == Idle && u.failures == s.failures + [g]
      && Next(u, Resume).t == u.t && Resumed(u.t, u.clock).1 == Rethrown
  {
    hide AtMostOneEach, Live;
  }
}
