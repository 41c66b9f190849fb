/**
 What becomes of every write and of everything queued: answers as they should be, a worker that
 drains the queue, and writers that are all served in the end.
 */
module OutputProgress {
  import opened Common
  import opened DbusOutput

  function Steps(c: Config, s: State, actions: seq<Action>): (t: State)
    decreases |actions|
  {
    if actions == [] then s else Steps(c, Next(c, s, actions[0]), actions[1..])
  }

  lemma {:induction false} StepsKeep(c: Config, s: State, actions: seq<Action>)
    requires Inv(c, s)
    ensures Inv(c, Steps(c, s, actions))
    decreases |actions|
  {
    if actions != [] {
      hide Inv, Next;
      StepKeeps(c, s, actions[0]);
      StepsKeep(c, Next(c, s, actions[0]), actions[1..]);
    }
  }

  lemma {:induction false} StepsThen(c: Config, s: State, a: seq<Action>, b: seq<Action>)
    ensures Steps(c, s, a + b) == Steps(c, Steps(c, s, a), b)
    decreases |a|
  {
    if a == [] {
      assert a + b == b;
    } else {
      hide Next;
      assert (a + b)[1..] == a[1..] + b;
      StepsThen(c, Next(c, s, a[0]), a[1..], b);
    }
  }

  // ---------------------------------------------------------------- answers

  /**
   A write arrives unless its size or the endpoint forbids it, and it is admitted at once exactly
   if it need not wait.
   */
  lemma WriteArrives(c: Config, s: State, p: Payload)
    requires Inv(c, s)
    ensures var t := Next(c, s, Write(p));
      var allowed := |p| <= c.maxMessageBytes && !s.e.failed && !s.e.stopping;
      var room := |s.e.queue| < c.maxQueuedMessages && Total(s.e.queue) + |p| <= c.maxQueuedBytes;
      && t.arrivals == s.arrivals + (if allowed then [p] else [])
      && t.admitted == s.admitted + (if allowed && room && s.waiting == map[] then [p] else [])
      && (allowed && !(room && s.waiting == map[]) ==> t.waiting == s.waiting[s.e.nextTicket := p])
      && (!allowed ==> t == s)
  {
    hide Total;
    if Running(s.e) && s.e.servingTicket < s.e.nextTicket {
      assert s.e.servingTicket in s.waiting;
    }
    if Running(s.e) && s.waiting != map[] {
      var t :| t in s.waiting;
    }
  }

  /**
   A woken writer of a failed or stopped endpoint gives up; otherwise its payload is admitted once
   it is served and fits.
   */
  lemma WakeAnswers(c: Config, s: State, ticket: nat)
    requires Inv(c, s) && ticket in s.waiting
    ensures var t := Next(c, s, Wake(ticket));
      var p := s.waiting[ticket];
      var over := s.e.failed || s.e.stopping;
      var fits := |s.e.queue| < c.maxQueuedMessages && Total(s.e.queue) + |p| <= c.maxQueuedBytes;
      && t.arrivals == s.arrivals
      && (over ==> t.waiting == s.waiting - {ticket} && t.admitted == s.admitted)
      && (!over && ticket == s.e.servingTicket && fits ==>
            t.waiting == s.waiting - {ticket} && t.admitted == s.admitted + [p])
      && (!over && !(ticket == s.e.servingTicket && fits) ==> t == s)
  {
    hide Total;
  }

  /**
   The worker leaves only with the queue empty or the deadline passed after the stop, or because
   sending or dispatching failed.
   */
  lemma WorkerLeavesOnlyWhenDone(c: Config, s: State, a: Action)
    requires s.worker != Exited && Next(c, s, a).worker == Exited
    ensures Next(c, s, a).e.failed
      || (a.Look? && s.stopFlag && (s.e.queue == [] || a.expired) && Next(c, s, a).e.queue == s.e.queue)
    ensures Next(c, s, a).e.failed && !s.e.failed ==> a == Send(false) || a == Dispatch(false)
  {
  }

  /** Each look of the worker: leave, take the first payload, or only keep the connection going. */
  lemma LookDecides(c: Config, s: State, expired: bool, full: bool)
    requires s.worker == Looking
    ensures var t := Next(c, s, Look(expired, full));
      var leave := s.stopFlag && (expired || s.e.queue == []);
      && (t.worker == Exited <==> leave)
      && (t.worker.Holding? <==> !leave && !full && s.e.queue != [])
      && (t.worker.Holding? ==> t.worker.payload == s.e.queue[0])
      && (!leave && !t.worker.Holding? ==> t.worker == Dispatching)
      && t.sent == s.sent && t.e.queue == s.e.queue
  {
  }

  /** A failure of sending or dispatching ends the endpoint: nothing is taken, and every waiting writer may leave. */
  lemma FailureEndsEndpoint(c: Config, s: State, a: Action, ticket: nat)
    requires (s.worker.Holding? && a == Send(false)) || (s.worker == Dispatching && a == Dispatch(false))
    ensures var t := Next(c, s, a);
      && t.e.failed && t.worker == Exited && t.sent == s.sent && t.e.queue == s.e.queue
      && t.waiting == s.waiting && (ticket in t.waiting ==> ticket !in Next(c, t, Wake(ticket)).waiting)
  {
  }

  /** After the stop no write arrives any more, whatever happens. */
  lemma {:induction false} NothingArrivesAfterStop(c: Config, s: State, actions: seq<Action>)
    ensures var t := Steps(c, Next(c, s, Stop), actions); t.e.stopping && t.arrivals == s.arrivals
  {
    StoppedStays(c, Next(c, s, Stop), actions);
  }

  lemma {:induction false} StoppedStays(c: Config, s: State, actions: seq<Action>)
    requires s.e.stopping
    ensures var t := Steps(c, s, actions); t.e.stopping && t.arrivals == s.arrivals
    decreases |actions|
  {
    if actions != [] {
      StoppedOneStep(c, s, actions[0]);
      hide Next;
      StoppedStays(c, Next(c, s, actions[0]), actions[1..]);
    }
  }

  lemma StoppedOneStep(c: Config, s: State, a: Action)
    requires s.e.stopping
    ensures Next(c, s, a).e.stopping && Next(c, s, a).arrivals == s.arrivals
  {
  }

  // ---------------------------------------------------------------- draining

  /** The worker at the top of its loop, and what it does for one payload. */
  const ROUND: seq<Action> := [Look(false, false), Send(true), PopFront, Dispatch(true)]

  lemma OneRound(c: Config, s: State)
    requires Inv(c, s) && s.worker == Looking && s.e.queue != []
    ensures var t := Steps(c, s, ROUND);
      && t.worker == Looking && t.sent == s.sent + [s.e.queue[0]] && t.e.queue == s.e.queue[1..]
      && SameBut(s, t)
  {
    hide Inv;
    var s1 := Next(c, s, Look(false, false));
    var s2 := Next(c, s1, Send(true));
    var s3 := Next(c, s2, PopFront);
    assert ROUND[1..] == [Send(true), PopFront, Dispatch(true)];
    assert ROUND[1..][1..] == [PopFront, Dispatch(true)];
    assert ROUND[1..][1..][1..] == [Dispatch(true)];
    assert ROUND[1..][1..][1..][1..] == [];
  }

  /** What the worker's own steps leave alone. */
  predicate SameBut(s: State, t: State) {
    && t.waiting == s.waiting && t.arrivals == s.arrivals && t.admitted == s.admitted
    && t.stopFlag == s.stopFlag && t.closed == s.closed
    && t.e.failed == s.e.failed && t.e.stopping == s.e.stopping
    && t.e.servingTicket == s.e.servingTicket && t.e.nextTicket == s.e.nextTicket
  }

  /** Wherever the worker is, it gets back to the top of its loop, having sent what it held. */
  lemma BackToLooking(c: Config, s: State) returns (actions: seq<Action>)
    requires Inv(c, s) && s.worker != Exited
    ensures |actions| <= 3
    ensures var t := Steps(c, s, actions); t.worker == Looking && SameBut(s, t)
  {
    match s.worker
    case Looking => actions := [];
    case Holding(_) => actions := [Send(true), PopFront, Dispatch(true)];
    case Popping => actions := [PopFront, Dispatch(true)];
    case Dispatching => actions := [Dispatch(true)];
  }

  /** Left to itself, the worker sends everything that is queued. */
  lemma {:induction false} DrainsQueue(c: Config, s: State) returns (actions: seq<Action>)
    requires Inv(c, s) && s.worker == Looking
    ensures var t := Steps(c, s, actions);
      t.worker == Looking && t.e.queue == [] && t.sent == s.sent + s.e.queue && SameBut(s, t)
    decreases |s.e.queue|
  {
    if s.e.queue == [] {
      actions := [];
    } else {
      hide Inv, Steps;
      OneRound(c, s);
      StepsKeep(c, s, ROUND);
      var t := Steps(c, s, ROUND);
      var rest := DrainsQueue(c, t);
      actions := ROUND + rest;
      StepsThen(c, s, ROUND, rest);
      assert s.e.queue == [s.e.queue[0]] + s.e.queue[1..];
      assert s.sent + [s.e.queue[0]] + s.e.queue[1..] == s.sent + s.e.queue;
    }
  }

  /** From any reachable state with a live worker there is a way on in which everything admitted is sent. */
  lemma DrainsFrom(c: Config, s: State) returns (actions: seq<Action>)
    requires Inv(c, s) && s.worker != Exited
    ensures var t := Steps(c, s, actions);
      Inv(c, t) && t.worker == Looking && t.e.queue == [] && t.sent == s.admitted && SameBut(s, t)
  {
    hide Steps;
    var back := BackToLooking(c, s);
    StepsKeep(c, s, back);
    var rest := DrainsQueue(c, Steps(c, s, back));
    StepsThen(c, s, back, rest);
    actions := back + rest;
    StepsKeep(c, s, actions);
  }

  /**
   A shutdown, begun at any time, whose worker neither fails nor runs out of time sends every
   admitted payload and reports nothing unsent.
   */
  lemma ShutdownDrains(c: Config, s: State) returns (actions: seq<Action>)
    requires Inv(c, s) && s.worker != Exited
    ensures var t := Steps(c, s, actions);
      && t.closed && t.worker == Exited && t.sent == s.admitted && t.admitted == s.admitted
      && t.e.unsentMessages == 0 && t.e.unsentBytes == 0
  {
    hide Inv;
    var begin := [Stop, RaiseStopFlag];
    assert begin[1..] == [RaiseStopFlag];
    StepsKeep(c, s, begin);
    var drain := StoppedDrains(c, Steps(c, s, begin));
    StepsThen(c, s, begin, drain);
    actions := begin + drain;
  }

  lemma StoppedDrains(c: Config, s: State) returns (actions: seq<Action>)
    requires Inv(c, s) && s.worker != Exited && s.stopFlag
    ensures var t := Steps(c, s, actions);
      && t.closed && t.worker == Exited && t.sent == s.admitted && t.admitted == s.admitted
      && t.e.unsentMessages == 0 && t.e.unsentBytes == 0
  {
    var drain := DrainsFrom(c, s);
    var t := Steps(c, s, drain);
    StepsThen(c, s, drain, [Look(false, false), Close]);
    assert [Look(false, false), Close][1..] == [Close];
    actions := drain + [Look(false, false), Close];
  }

  /**
   Nobody waits for ever: in a running endpoint with valid limits and a live worker, the worker's steps and
   the writers' wake-ups lead to a state in which every payload that arrived is sent and nobody waits.
   */
  lemma {:induction false} EverybodyIsServed(c: Config, s: State) returns (actions: seq<Action>)
    requires ValidLimits(c) && Inv(c, s) && s.worker != Exited && Running(s.e)
    ensures var t := Steps(c, s, actions);
      Inv(c, t) && t.waiting == map[] && t.arrivals == s.arrivals && t.sent == t.admitted == s.arrivals
    decreases s.e.nextTicket - s.e.servingTicket
  {
    hide Steps;
    var drain := DrainsFrom(c, s);
    var t := Steps(c, s, drain);
    if t.waiting == map[] {
      actions := drain;
      NobodyWaits(c, t);
    } else {
      var ticket := t.e.servingTicket;
      FirstIsServed(c, t);
      var u := Next(c, t, Wake(ticket));
      StepKeeps(c, t, Wake(ticket));
      var rest := EverybodyIsServed(c, u);
      StepsThen(c, s, drain, [Wake(ticket)] + rest);
      OneThen(c, t, Wake(ticket), rest);
      actions := drain + ([Wake(ticket)] + rest);
    }
  }

  lemma OneThen(c: Config, s: State, a: Action, rest: seq<Action>)
    ensures Steps(c, s, [a] + rest) == Steps(c, Next(c, s, a), rest)
  {
    hide Next;
    assert ([a] + rest)[1..] == rest;
  }

  lemma NobodyWaits(c: Config, s: State)
    requires Inv(c, s) && Running(s.e) && s.waiting == map[]
    ensures s.admitted == s.arrivals
  {
    assert s.e.servingTicket < s.e.nextTicket ==> s.e.servingTicket in s.waiting;
  }

  /** With the queue empty, the writer whose ticket is served is admitted when it wakes up. */
  lemma FirstIsServed(c: Config, s: State)
    requires ValidLimits(c) && Inv(c, s) && Running(s.e) && s.e.queue == [] && s.waiting != map[]
    ensures var t := Next(c, s, Wake(s.e.servingTicket));
      && Running(t.e) && t.worker == s.worker && t.arrivals == s.arrivals
      && t.e.nextTicket == s.e.nextTicket && t.e.servingTicket == s.e.servingTicket + 1 <= s.e.nextTicket
  {
    var t :| t in s.waiting;
    assert s.e.servingTicket in s.waiting;
    assert WaitsInOrder(c, s, s.e.servingTicket);
  }
}
