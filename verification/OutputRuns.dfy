/**
 What the output endpoint guarantees in every run.
 */
module OutputRuns {
  import opened DbusOutput

  /** What has been handed to libdbus, in order, and what the queue still holds behind it. */
  function Unsent(s: State): (r: seq<Payload>) {
    if s.worker == Popping && s.e.queue != [] then s.e.queue[1..] else s.e.queue
  }

  /**
   In every run the payloads admitted are the first ones that arrived, in that order; those
   sent followed by those queued are the admitted ones; both queue limits hold; and the status
   shows the queue as it is.
   */
  lemma {:induction false} InOrderWithinLimits(c: Config, actions: seq<Action>)
    ensures var s := Run(c, actions);
      && s.admitted <= s.arrivals && s.sent + Unsent(s) == s.admitted
      && |s.e.queue| <= c.maxQueuedMessages && s.e.pendingBytes == Total(s.e.queue) <= c.maxQueuedBytes
      && s.e.shownMessages == |s.e.queue| && s.e.shownBytes == Total(s.e.queue)
  {
    hide Run, TicketsOk;
    RunsKeepInv(c, actions);
  }

  /** After shutdown, the messages written are the messages sent and those reported unsent. */
  lemma {:induction false} WrittenIsSentPlusUnsent(c: Config, actions: seq<Action>)
    requires Run(c, actions).closed
    ensures var s := Run(c, actions);
      && s.e.written == s.e.handedOver + s.e.unsentMessages && s.e.handedOver == |s.sent|
      && s.e.unsentMessages == |s.e.queue| && s.e.unsentBytes == Total(s.e.queue)
      && s.admitted == s.sent + s.e.queue
  {
    hide Run, TicketsOk;
    RunsKeepInv(c, actions);
  }

  /**
   While the endpoint runs and its queue is empty, the writer whose ticket is served may leave
   the wait, and is then admitted; and every waiting writer's turn is at or behind that ticket.
   */
  lemma {:induction false} EmptyQueueServesNext(c: Config, actions: seq<Action>)
    requires ValidLimits(c)
    requires var s := Run(c, actions); Running(s.e) && s.e.queue == [] && s.waiting != map[]
    ensures var s := Run(c, actions);
      var ticket := s.e.servingTicket;
      && ticket in s.waiting && (forall t :: t in s.waiting ==> ticket <= t)
      && MayLeave(c, s.e, ticket, |s.waiting[ticket]|)
      && Next(c, s, Wake(ticket)).admitted == s.admitted + [s.waiting[ticket]]
  {
    hide Run;
    RunsKeepInv(c, actions);
    var s := Run(c, actions);
    var t :| t in s.waiting;
    assert s.e.servingTicket in s.waiting;
    assert WaitsInOrder(c, s, s.e.servingTicket);
  }

  /** Steps that are followed by a notification of all blocked writers. */
  predicate Notifies(s: State, a: Action) {
    a.Wake? || a.PopFront? || a.Stop? || (a.Send? && !a.ok) || (a.Dispatch? && !a.ok)
  }

  /** No wake-up is lost: a blocked writer can only become free to leave by a step that notifies. */
  lemma OnlyNotifyingStepsFree(c: Config, s: State, a: Action, ticket: nat)
    requires ticket in s.waiting && !MayLeave(c, s.e, ticket, |s.waiting[ticket]|)
    requires ticket in Next(c, s, a).waiting
    requires MayLeave(c, Next(c, s, a).e, ticket, |Next(c, s, a).waiting[ticket]|)
    requires Inv(c, s)
    ensures Notifies(s, a)
  {
  }
}
