/**
 What the scheduled pipe guarantees in every run.
 */
module PipeRuns {
  import opened Common
  import opened ScheduledPipe

  lemma {:induction false} OncePerNumber(items: seq<Item>, x: Item)
    requires forall i :: 0 <= i < |items| ==> items[i].id == i
    ensures Times(items, x) == if x.id < |items| && items[x.id] == x then 1 else 0
  {
    if items != [] {
      var n := |items| - 1;
      OncePerNumber(items[..n], x);
      assert items == items[..n] + [items[n]];
      TimesOfAppend(items[..n], items[n], x);
    }
  }

  /**
   Submitted writes are those processed, the one in hand and those in both queues; and every
   accepted item is delivered once, or waits in one queue once.
   */
  lemma {:induction false} SubmittedIsAccountedFor(start: Time, actions: seq<Action>, x: Item)
    ensures var s := Run(start, actions);
      && s.p.submitted == s.p.count + InHand(s.worker) + |s.p.immediate| + |s.p.scheduled|
      && Times(Items(s.deliveries), x) + Times(s.p.immediate, x) + Times(s.p.scheduled, x) ==
           (if x in s.accepted then 1 else 0)
  {
    hide Run, Times, Items, OnTime, EarlierFirst, ImmediatesFifo;
    RunsKeepInv(start, actions);
    var s := Run(start, actions);
    assert Accounted(s, x);
    OncePerNumber(s.accepted, x);
  }

  /** Immediate items are delivered in the order in which they were accepted. */
  lemma {:induction false} ImmediatesAreFifo(start: Time, actions: seq<Action>)
    ensures var s := Run(start, actions);
      Immediates(s.accepted) == Immediates(Items(s.deliveries)) + s.p.immediate
  {
    hide Run, Times, Items, OnTime, EarlierFirst, NothingLost, Immediates;
    RunsKeepInv(start, actions);
  }

  /** A scheduled item is only chosen when no immediate item waits, and never before its deadline. */
  lemma {:induction false} ChoiceIsRight(start: Time, actions: seq<Action>)
    requires var s := Run(start, actions); s.worker == Choosing && Chosen(s.p, s.clock).1.Take?
    ensures var s := Run(start, actions);
      var item := Chosen(s.p, s.clock).1.item;
      && Next(s, Choose).worker == Processing(item)
      && (item.deadline.Some? ==>
            && s.p.immediate == [] && item.deadline.value <= s.clock
            && forall x :: x in s.p.scheduled && x != item ==> Before(item, x))
  {
    hide Run, Times, Items, OnTime, EarlierFirst, NothingLost, ImmediatesFifo;
    RunsKeepInv(start, actions);
    var s := Run(start, actions);
    assert s.p.immediate != [] ==> s.p.immediate[0] in s.p.immediate;
  }

  /** The worker sleeps only when nothing is ready, and not beyond the earliest deadline. */
  lemma {:induction false} SleepsOnlyWhenIdle(start: Time, actions: seq<Action>)
    ensures var s := Run(start, actions);
      match Chosen(s.p, s.clock).1
      case Sleep => s.p.immediate == [] && s.p.scheduled == [] && !s.p.down
      case SleepUntil(d) =>
        && s.p.immediate == [] && s.clock < d
        && (exists x :: x in s.p.scheduled && x.deadline == Some(d))
        && (forall x :: x in s.p.scheduled ==> x.deadline.Some? && d <= x.deadline.value)
      case _ => true
  {
    hide Run, Times, Items, OnTime, EarlierFirst, NothingLost, ImmediatesFifo;
    RunsKeepInv(start, actions);
    var p := Run(start, actions).p;
    assert p.scheduled != [] ==> p.scheduled[0] in p.scheduled;
    forall x | x in p.scheduled ensures Due(p.scheduled[0]) <= Due(x) {
      var i :| 0 <= i < |p.scheduled| && p.scheduled[i] == x;
      assert i > 0 ==> Before(p.scheduled[0], p.scheduled[i]);
    }
  }

  /** Deliveries are on time, and of two scheduled items accepted in time for both, the earlier one comes first. */
  lemma {:induction false} DeadlinesAreKept(start: Time, actions: seq<Action>, i: nat, j: nat)
    requires i < j < |Run(start, actions).deliveries|
    ensures var ds := Run(start, actions).deliveries;
      && (ds[i].item.deadline.Some? ==> ds[i].item.deadline.value <= ds[i].time)
      && (ds[i].item.deadline.Some? && ds[j].item.deadline.Some? && ds[j].item.id < ds[i].seen ==>
            Before(ds[i].item, ds[j].item))
  {
    hide Run, Times, Items, NothingLost, ImmediatesFifo;
    RunsKeepInv(start, actions);
    var s := Run(start, actions);
    assert Fair(s.deliveries[i], s.deliveries[j].item);
  }

  /** A worker that exits without a failure has processed every accepted item, and none is accepted after that. */
  lemma {:induction false} CleanExitHasDrained(start: Time, actions: seq<Action>, a: Action)
    requires Run(start, actions).worker == Exited(None)
    ensures var s := Run(start, actions);
      && s.p.down && s.p.immediate == s.p.scheduled == [] && s.p.count == s.p.submitted
      && Next(s, a).p.submitted == s.p.submitted && Next(s, a).accepted == s.accepted
  {
    hide Run, Times, Items, OnTime, EarlierFirst, NothingLost, ImmediatesFifo;
    RunsKeepInv(start, actions);
  }
}
