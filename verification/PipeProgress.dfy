/**
 A scheduled pipe delivers everything it accepted once its time has come, and a shutdown ends it.
 */
module PipeProgress {
  import opened Common
  import opened ScheduledPipe

  function Steps(s: State, actions: seq<Action>): (t: State)
    decreases |actions|
  {
    if actions == [] then s else Steps(Next(s, actions[0]), actions[1..])
  }

  lemma {:induction false} StepsThen(s: State, a: seq<Action>, b: seq<Action>)
    ensures Steps(s, a + b) == Steps(Steps(s, a), b)
    decreases |a|
  {
    if a == [] {
      assert a + b == b;
    } else {
      hide Next;
      assert (a + b)[1..] == a[1..] + b;
      StepsThen(Next(s, a[0]), a[1..], b);
    }
  }

  lemma {:induction false} StepsKeep(s: State, actions: seq<Action>)
    requires Inv(s)
    ensures Inv(Steps(s, actions))
    decreases |actions|
  {
    if actions != [] {
      hide Inv, Next;
      StepKeeps(s, actions[0]);
      StepsKeep(Next(s, actions[0]), actions[1..]);
    }
  }

  lemma ThreeSteps(s: State, a: Action, b: Action, c: Action)
    ensures Steps(s, [a, b, c]) == Next(Next(Next(s, a), b), c)
  {
    hide Next;
    assert [a, b, c][1..] == [b, c] && [b, c][1..] == [c] && [c][1..] == [];
    assert Steps(Next(Next(s, a), b), [c]) == Next(Next(Next(s, a), b), c);
  }

  /** A pipe that is not shut down accepts every write, at the end of the one queue or in the other. */
  lemma WritesAreAccepted(s: State, d: Time)
    requires Inv(s)
    ensures var t, u := Next(s, Write), Next(s, WriteAt(d));
      && t.accepted == s.accepted + (if s.p.down then [] else [Item(s.p.submitted, None)])
      && (!s.p.down ==> t.p.immediate == s.p.immediate + [Item(s.p.submitted, None)])
      && u.accepted == s.accepted + (if s.p.down then [] else [Item(s.p.submitted, Some(d))])
      && (!s.p.down ==> multiset(u.p.scheduled) == multiset(s.p.scheduled) + multiset{Item(s.p.submitted, Some(d))})
      && (s.p.down ==> t == s && u == s)
  {
    hide OnTime, EarlierFirst, ImmediatesFifo, NothingLost, CountsOk, WorkerOk;
    EmplaceMultiset(s.p.scheduled, Item(s.p.submitted, Some(d)));
  }

  // ---------------------------------------------------------------- shutting down

  /** A pipe that is shut down accepts nothing more, whatever happens. */
  lemma {:induction false} NothingAfterShutdown(s: State, actions: seq<Action>)
    ensures var t := Steps(Next(s, Shutdown), actions);
      t.p.down && t.accepted == s.accepted && t.p.submitted == s.p.submitted
  {
    DownStaysDown(Next(s, Shutdown), actions);
  }

  lemma {:induction false} DownStaysDown(s: State, actions: seq<Action>)
    requires s.p.down
    ensures var t := Steps(s, actions); t.p.down && t.accepted == s.accepted && t.p.submitted == s.p.submitted
    decreases |actions|
  {
    if actions != [] {
      DownOneStep(s, actions[0]);
      hide Next;
      DownStaysDown(Next(s, actions[0]), actions[1..]);
    }
  }

  lemma DownOneStep(s: State, a: Action)
    requires s.p.down
    ensures var t := Next(s, a); t.p.down && t.accepted == s.accepted && t.p.submitted == s.p.submitted
  {
  }

  /** A processing that fails ends the pipe: its item is dropped, uncounted, and nothing more is taken. */
  lemma FailureEndsPipe(s: State, actions: seq<Action>)
    requires s.worker.Processing?
    ensures var t := Next(s, Finish(true));
      && t.p.failed && t.worker == Exited(Some(s.worker.item)) && t.p.count == s.p.count
      && Steps(t, actions).worker == t.worker && Steps(t, actions).deliveries == s.deliveries
  {
    ExitedStays(Next(s, Finish(true)), actions);
  }

  lemma {:induction false} ExitedStays(s: State, actions: seq<Action>)
    requires s.worker.Exited?
    ensures Steps(s, actions).worker == s.worker && Steps(s, actions).deliveries == s.deliveries
    decreases |actions|
  {
    if actions != [] {
      ExitedOneStep(s, actions[0]);
      hide Next;
      ExitedStays(Next(s, actions[0]), actions[1..]);
    }
  }

  lemma ExitedOneStep(s: State, a: Action)
    requires s.worker.Exited?
    ensures Next(s, a).worker == s.worker && Next(s, a).deliveries == s.deliveries
  {
  }

  // ---------------------------------------------------------------- draining

  /** What the next delivery will be, and how long the worker has to wait for it. */
  function FirstDue(p: Pipe): (item: Item)
    requires p.immediate != [] || p.scheduled != []
  {
    if p.immediate != [] then p.immediate[0] else p.scheduled[0]
  }

  function Wait(s: State): (elapsed: nat)
    requires s.p.immediate != [] || s.p.scheduled != []
  {
    if s.p.immediate == [] && Due(s.p.scheduled[0]) > s.clock then Due(s.p.scheduled[0]) - s.clock else 0
  }

  /** An idle worker delivers the next item after exactly the time that it is not due yet. */
  lemma DeliversNext(s: State)
    requires Inv(s) && s.worker == Choosing && (s.p.immediate != [] || s.p.scheduled != [])
    ensures var t := Steps(s, [Advance(Wait(s)), Choose, Finish(false)]);
      && t.worker == Choosing && t.p.down == s.p.down && t.accepted == s.accepted && t.p.submitted == s.p.submitted
      && t.p.immediate + t.p.scheduled == (s.p.immediate + s.p.scheduled)[1..]
      && Items(t.deliveries) == Items(s.deliveries) + [FirstDue(s.p)] && t.p.count == s.p.count + 1
      && t.clock == s.clock + Wait(s)
  {
    hide AcceptedOk, Numbered, CountsOk, OnTime, EarlierFirst, ImmediatesFifo, NothingLost;
    ThreeSteps(s, Advance(Wait(s)), Choose, Finish(false));
    var t := Next(Next(Next(s, Advance(Wait(s))), Choose), Finish(false));
    assert (s.p.immediate + s.p.scheduled)[1..] ==
      if s.p.immediate != [] then s.p.immediate[1..] + s.p.scheduled else s.p.scheduled[1..];
  }

  /** Everything queued is delivered, immediate items first, then the scheduled ones in order. */
  lemma {:induction false} DrainsIdle(s: State) returns (actions: seq<Action>)
    requires Inv(s) && s.worker == Choosing
    ensures var t := Steps(s, actions);
      && t.worker == Choosing && t.p.immediate == t.p.scheduled == [] && t.p.down == s.p.down
      && Items(t.deliveries) == Items(s.deliveries) + s.p.immediate + s.p.scheduled
      && t.accepted == s.accepted && t.p.submitted == s.p.submitted
    decreases |s.p.immediate| + |s.p.scheduled|
  {
    if s.p.immediate == [] && s.p.scheduled == [] {
      actions := [];
    } else {
      hide Inv, Steps, Items;
      var round := [Advance(Wait(s)), Choose, Finish(false)];
      DeliversNext(s);
      StepsKeep(s, round);
      var t := Steps(s, round);
      var rest := DrainsIdle(t);
      actions := round + rest;
      StepsThen(s, round, rest);
      FirstThenRest(s.p.immediate, s.p.scheduled, t.p.immediate, t.p.scheduled, FirstDue(s.p), Items(s.deliveries));
    }
  }

  lemma FirstThenRest(a: seq<Item>, b: seq<Item>, c: seq<Item>, d: seq<Item>, x: Item, before: seq<Item>)
    requires a + b != [] && c + d == (a + b)[1..] && x == (if a != [] then a[0] else b[0])
    ensures |c| + |d| < |a| + |b|
    ensures before + [x] + c + d == before + a + b
  {
    assert a + b == [x] + (c + d);
    assert |a + b| == 1 + |c + d|;
    assert before + [x] + c + d == before + ([x] + (c + d));
    assert before + a + b == before + (a + b);
  }

  /**
   From any reachable state in which the worker is alive: when it is left to itself, no processing
   fails and time goes by, every accepted item is delivered and processed; and after a shutdown
   the worker leaves.
   */
  lemma DrainsAfterShutdown(s: State) returns (actions: seq<Action>)
    requires Inv(s) && !s.worker.Exited?
    ensures var t := Steps(s, actions);
      && t.worker == Exited(None) && t.accepted == s.accepted && t.p.count == t.p.submitted == |s.accepted|
      && multiset(Items(t.deliveries)) == multiset(s.accepted)
  {
    hide Steps, Inv, Items;
    var finish := if s.worker.Processing? then [Finish(false)] else [];
    FinishesItem(s);
    StepsKeep(s, finish);
    var drain := DrainsIdle(Steps(s, finish));
    StepsThen(s, finish, drain);
    StepsKeep(s, finish + drain);
    Leaves(Steps(s, finish + drain));
    StepsThen(s, finish + drain, [Shutdown, Choose]);
    StepsKeep(s, finish + drain + [Shutdown, Choose]);
    actions := finish + drain + [Shutdown, Choose];
    AllDelivered(Steps(s, actions));
  }

  lemma FinishesItem(s: State)
    requires !s.worker.Exited?
    ensures var t := Steps(s, if s.worker.Processing? then [Finish(false)] else []);
      t.worker == Choosing && t.accepted == s.accepted
  {
  }

  lemma Leaves(s: State)
    requires Inv(s) && s.worker == Choosing && s.p.immediate == s.p.scheduled == []
    ensures var t := Steps(s, [Shutdown, Choose]); t.worker == Exited(None) && t.accepted == s.accepted
  {
    hide AcceptedOk, Numbered, CountsOk, OnTime, EarlierFirst, ImmediatesFifo, NothingLost;
    assert [Shutdown, Choose][1..] == [Choose] && [Shutdown, Choose][1..][1..] == [];
  }

  lemma AllDelivered(s: State)
    requires Inv(s) && s.worker == Exited(None)
    ensures s.p.count == s.p.submitted == |s.accepted| && multiset(Items(s.deliveries)) == multiset(s.accepted)
  {
    hide OnTime, EarlierFirst, ImmediatesFifo, Numbered, Items;
    forall x: Item ensures multiset(Items(s.deliveries))[x] == multiset(s.accepted)[x] {
      assert Accounted(s, x);
    }
  }
}
