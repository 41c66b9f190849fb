/**
 How calls are admitted, how each of the five ways to end a call ends it, and how a shutdown
 comes to its end.
 */
module CallProgress {
  import opened Common
  import opened DbusCalls
  import opened DbusCallRuns

  function Steps(s: State, cap: nat, actions: seq<Action>): (t: State)
    decreases |actions|
  {
    if actions == [] then s else Steps(Next(s, cap, actions[0]), cap, actions[1..])
  }

  lemma {:induction false} StepsThen(s: State, cap: nat, a: seq<Action>, b: seq<Action>)
    ensures Steps(s, cap, a + b) == Steps(Steps(s, cap, a), cap, b)
    decreases |a|
  {
    if a == [] {
      assert a + b == b;
    } else {
      hide Next;
      assert (a + b)[1..] == a[1..] + b;
      StepsThen(Next(s, cap, a[0]), cap, a[1..], b);
    }
  }

  lemma {:induction false} StepsKeep(s: State, cap: nat, actions: seq<Action>)
    requires Inv(s, cap)
    ensures Inv(Steps(s, cap, actions), cap)
    decreases |actions|
  {
    if actions != [] {
      hide Inv, Next;
      StepKeeps(s, cap, actions[0]);
      StepsKeep(Next(s, cap, actions[0]), cap, actions[1..]);
    }
  }

  // ---------------------------------------------------------------- admission

  predicate Undecided(s: State, r: Rid, full: bool) {
    r in s.requests && s.requests[r].stage == Deciding(full) && s.lock == Some(r)
  }

  lemma UndecidedStep(s: State, cap: nat, a: Action, r: Rid, full: bool)
    requires Inv(s, cap) && Undecided(s, r, full) && a != Decide(r)
    ensures Undecided(Next(s, cap, a), r, full)
  {
    hide SlotsOk, ClosingOk, MapOk;
  }

  lemma {:induction false} UndecidedStays(s: State, cap: nat, actions: seq<Action>, r: Rid, full: bool)
    requires Inv(s, cap) && Undecided(s, r, full) && Decide(r) !in actions
    ensures Undecided(Steps(s, cap, actions), r, full)
    decreases |actions|
  {
    if actions != [] {
      hide Inv, Next, Undecided;
      assert actions[0] in actions;
      StepKeeps(s, cap, actions[0]);
      UndecidedStep(s, cap, actions[0], r, full);
      UndecidedStays(Next(s, cap, actions[0]), cap, actions[1..], r, full);
    }
  }

  /**
   A call is admitted exactly when, at the moment it was submitted, fewer calls than the limit were in
   flight, whatever happens between the submission and the decision.
   */
  lemma {:induction false} AdmittedIffRoom(cap: nat, before: seq<Action>, r: Rid, between: seq<Action>)
    requires var s := Run(INITIAL, cap, before); s.lock == None && s.closing == Open && r !in s.requests
    requires Decide(r) !in between
    ensures var s := Run(INITIAL, cap, before);
      var t := Next(Steps(Next(s, cap, Submit(r)), cap, between), cap, Decide(r));
      && r in t.requests && t.lock == None
      && t.requests[r].stage == (if |InFlight(s)| < cap then Admitted else Refusing)
  {
    hide Run, Inv, Steps;
    var s := Run(INITIAL, cap, before);
    RunsKeepInv(cap, before);
    TurnedAwayIffFull(cap, before, r);
    StepKeeps(s, cap, Submit(r));
    UndecidedStays(Next(s, cap, Submit(r)), cap, between, r, |InFlight(s)| >= cap);
  }

  /** An admitted call that is sent is queued while the client is open, and is given up otherwise. */
  lemma QueuedIffOpen(s: State, cap: nat, r: Rid, sent: bool)
    requires Inv(s, cap) && s.lock == None && r in s.requests && s.requests[r].stage == Admitted
    ensures var t := Next(s, cap, Queue(r, sent));
      && r in t.requests
      && (s.closing == Open && sent ==> t.requests[r].stage == Queued && t.requests[r].pending && r in t.inMap)
      && (s.closing != Open || !sent ==>
            && t.requests[r].stage == Releasing
            && Refusal(Next(Next(t, cap, Refuse(r)), cap, Refuse(r)), s, r))
  {
    hide SlotsOk, ClosingOk, MapOk, LockOk, AgentsOk;
  }

  /** The call is refused: its slot is given back and its promise is kept by its submitter. */
  predicate Refusal(t: State, s: State, r: Rid) {
    && r in t.requests && t.requests[r].stage == Refused && t.requests[r].resolvedBy == [Submitter]
    && t.requests[r].slotReleases == 1 && t.inFlight == s.inFlight - 1
  }

  // ---------------------------------------------------------------- ending a call

  /** A queued call can be cancelled, timed out and disconnected once its hook is set, and answered once. */
  lemma EveryWayIsOpen(s: State, cap: nat, r: Rid)
    requires Inv(s, cap) && s.lock == None && r in s.requests && s.requests[r].stage == Queued && s.requests[r].pending
    ensures var t := Next(s, cap, Hook(r));
      && MayStart(t, Cancel, r) && MayStart(t, Deadline, r) && MayStart(t, Disconnect, r)
      && (MayStart(t, Reply, r) <==> !s.requests[r].replied)
      && t.requests[r].pending && t.requests[r].stage == Queued && t.requests[r].completed == s.requests[r].completed
  {
    hide SlotsOk, ClosingOk, LockOk, RequestsOk, AgentsOk;
  }

  /** Five steps of one agent with nobody in between. */
  function Five(s: State, cap: nat, a: Aid): (t: State) {
    Next(Next(Next(Next(Next(s, cap, Step(a)), cap, Step(a)), cap, Step(a)), cap, Step(a)), cap, Step(a))
  }

  /**
   Whatever ends a queued call that nobody has ended - cancel, deadline, disconnect, shutdown or
   reply - ends it within five steps when it runs alone: the promise is kept by it and nobody else,
   the slot is given back, and the pending call is detached and released.
   */
  lemma AgentEndsCall(s: State, cap: nat, a: Aid, kind: Kind, r: Rid)
    requires Inv(s, cap) && s.lock == None && a !in s.agents
    requires r in s.requests && s.requests[r].stage == Queued && !s.requests[r].completed && MayStart(s, kind, r)
    ensures var t := Five(Next(s, cap, Start(a, kind, r)), cap, a);
      && Ended(s, t, a, kind, r)
      && t.lock == None && t.closing == Next(s, cap, Start(a, kind, r)).closing
  {
    hide SlotsOk, ClosingOk, LockOk, RequestsOk, AgentsOk;
    RequestAt(s, r);
    var u := Next(s, cap, Start(a, kind, r));
    assert u.agents == s.agents[a := Agent(kind, r, if kind == Reply then Detach else Exchange)];
    if kind == Reply {
      ReplyEndsCall(u, cap, a, r);
    } else {
      OtherEndsCall(u, cap, a, kind, r);
    }
  }

  predicate Ended(s: State, t: State, a: Aid, kind: Kind, r: Rid)
    requires r in s.requests
  {
    && r in t.requests && a in t.agents && t.agents[a] == Agent(kind, r, Finished)
    && t.requests[r].completed && t.requests[r].resolvedBy == [kind]
    && t.requests[r].slotReleases == 1 && t.inFlight == s.inFlight - 1
    && !t.requests[r].pending && t.requests[r].refReleases == 1
    && t.inMap == s.inMap - {r}
  }

  lemma ReplyEndsCall(s: State, cap: nat, a: Aid, r: Rid)
    requires s.lock == None && a in s.agents && s.agents[a] == Agent(Reply, r, Detach)
    requires r in s.requests && !s.requests[r].completed
    requires s.requests[r].slotReleases == 0 && s.requests[r].resolvedBy == []
    requires s.requests[r].refReleases == (if s.requests[r].pending then 0 else 1)
    ensures Ended(s, Five(s, cap, a), a, Reply, r)
    ensures Five(s, cap, a).lock == None && Five(s, cap, a).closing == s.closing
  {
  }

  lemma OtherEndsCall(s: State, cap: nat, a: Aid, kind: Kind, r: Rid)
    requires s.lock == None && a in s.agents && s.agents[a] == Agent(kind, r, Exchange) && kind != Reply
    requires r in s.requests && !s.requests[r].completed
    requires s.requests[r].slotReleases == 0 && s.requests[r].resolvedBy == []
    requires s.requests[r].refReleases == (if s.requests[r].pending then 0 else 1)
    requires !s.requests[r].pending ==> r !in s.inMap
    ensures Ended(s, Five(s, cap, a), a, kind, r)
    ensures Five(s, cap, a).lock == None && Five(s, cap, a).closing == s.closing
  {
    var u := Next(Next(Next(s, cap, Step(a)), cap, Step(a)), cap, Step(a));
    WinsAndResolves(s, cap, a, kind, r);
    TakesAndDrops(u, cap, a, kind, r);
  }

  lemma WinsAndResolves(s: State, cap: nat, a: Aid, kind: Kind, r: Rid)
    requires a in s.agents && s.agents[a] == Agent(kind, r, Exchange) && kind != Reply
    requires r in s.requests && !s.requests[r].completed
    ensures var t := Next(Next(Next(s, cap, Step(a)), cap, Step(a)), cap, Step(a));
      var q := s.requests[r];
      && r in t.requests && a in t.agents && t.agents[a] == Agent(kind, r, Take)
      && t.requests[r] == q.(completed := true, winner := Some(a), slotReleases := q.slotReleases + 1,
                             resolvedBy := q.resolvedBy + [kind])
      && t.inFlight == s.inFlight - 1 && t.inMap == s.inMap && t.lock == s.lock && t.closing == s.closing
  {
  }

  lemma TakesAndDrops(s: State, cap: nat, a: Aid, kind: Kind, r: Rid)
    requires s.lock == None && a in s.agents && s.agents[a] == Agent(kind, r, Take) && r in s.requests
    ensures var t := Next(Next(s, cap, Step(a)), cap, Step(a));
      var q := s.requests[r];
      && r in t.requests && a in t.agents && t.agents[a] == Agent(kind, r, Finished)
      && t.requests[r].completed == q.completed && t.requests[r].resolvedBy == q.resolvedBy
      && t.requests[r].slotReleases == q.slotReleases && t.inFlight == s.inFlight
      && !t.requests[r].pending && t.requests[r].refReleases == q.refReleases + (if q.pending then 1 else 0)
      && t.inMap == (if q.pending then s.inMap - {r} else s.inMap) && t.lock == None && t.closing == s.closing
  {
  }

  /**
   The same agent on a call that has been ended already: it resolves nothing and is done within five
   steps; a cancel that comes late does nothing at all.
   */
  lemma AgentComesLate(s: State, cap: nat, a: Aid, kind: Kind, r: Rid)
    requires Inv(s, cap) && s.lock == None && a !in s.agents
    requires r in s.requests && s.requests[r].stage == Queued && s.requests[r].completed && MayStart(s, kind, r)
    ensures var t := Five(Next(s, cap, Start(a, kind, r)), cap, a);
      && r in t.requests && a in t.agents && t.agents[a] == Agent(kind, r, Finished)
      && t.lock == None && t.closing == Next(s, cap, Start(a, kind, r)).closing && t.inFlight == s.inFlight
      && t.requests[r].resolvedBy == s.requests[r].resolvedBy
      && t.requests[r].slotReleases == s.requests[r].slotReleases
      && (kind != Cancel ==> !t.requests[r].pending)
      && (kind == Cancel ==> t.requests[r] == s.requests[r] && t.inMap == s.inMap)
  {
    hide SlotsOk, ClosingOk, LockOk, RequestsOk, AgentsOk, MapOk;
    var u := Next(s, cap, Start(a, kind, r));
    assert u.agents == s.agents[a := Agent(kind, r, if kind == Reply then Detach else Exchange)];
    LateSteps(u, cap, a, kind, r);
  }

  lemma LateSteps(s: State, cap: nat, a: Aid, kind: Kind, r: Rid)
    requires s.lock == None && a in s.agents && r in s.requests && s.requests[r].completed
    requires s.agents[a] == Agent(kind, r, if kind == Reply then Detach else Exchange)
    ensures var t := Five(s, cap, a);
      && r in t.requests && a in t.agents && t.agents[a] == Agent(kind, r, Finished)
      && t.lock == None && t.closing == s.closing && t.inFlight == s.inFlight
      && t.requests[r].resolvedBy == s.requests[r].resolvedBy
      && t.requests[r].slotReleases == s.requests[r].slotReleases
      && (kind != Cancel ==> !t.requests[r].pending)
      && (kind == Cancel ==> t.requests[r] == s.requests[r] && t.inMap == s.inMap)
  {
  }

  // ---------------------------------------------------------------- shutting down

  /** Once a shutdown has begun, no call is submitted or queued any more. */
  lemma {:induction false} NothingAfterShutdown(s: State, cap: nat, actions: seq<Action>, r: Rid)
    requires s.closing != Open
    ensures var t := Steps(s, cap, actions);
      && t.closing != Open && (r in t.requests ==> r in s.requests)
      && (r in t.requests && t.requests[r].stage == Queued ==> s.requests[r].stage == Queued)
    decreases |actions|
  {
    if actions != [] {
      ClosingStep(s, cap, actions[0], r);
      hide Next;
      NothingAfterShutdown(Next(s, cap, actions[0]), cap, actions[1..], r);
    }
  }

  lemma ClosingStep(s: State, cap: nat, a: Action, r: Rid)
    requires s.closing != Open
    ensures var t := Next(s, cap, a);
      && t.closing != Open && (r in t.requests ==> r in s.requests)
      && (r in t.requests && t.requests[r].stage == Queued ==> s.requests[r].stage == Queued)
  {
  }

  /** Nobody has this number yet. */
  lemma UnusedAid(agents: map<Aid, Agent>) returns (a: Aid)
    ensures a !in agents
  {
    var bound := Bound(agents.Keys);
    a := bound;
  }

  lemma {:induction false} Bound(s: set<nat>) returns (n: nat)
    ensures forall x :: x in s ==> x < n
    decreases |s|
  {
    if s == {} {
      n := 0;
    } else {
      var x :| x in s;
      var m := Bound(s - {x});
      n := if x < m then m else x + 1;
      forall y | y in s ensures y < n {
        assert y == x || y in s - {x};
      }
    }
  }

  /** The steps with which a sweep ends one call. */
  function Sweep(a: Aid, r: Rid): (actions: seq<Action>) {
    [Start(a, Shutdown, r)] + [Step(a)] + [Step(a)] + [Step(a)] + [Step(a)] + [Step(a)]
  }

  lemma Then(s: State, cap: nat, before: seq<Action>, a: Action)
    ensures Steps(s, cap, before + [a]) == Next(Steps(s, cap, before), cap, a)
  {
    hide Next, Steps;
    StepsThen(s, cap, before, [a]);
    OneStep(Steps(s, cap, before), cap, a);
  }

  lemma SweepIsFive(s: State, cap: nat, a: Aid, r: Rid)
    ensures Steps(s, cap, Sweep(a, r)) == Five(Next(s, cap, Start(a, Shutdown, r)), cap, a)
  {
    hide Next, Steps;
    var start := [Start(a, Shutdown, r)];
    OneStep(s, cap, start[0]);
    Then(s, cap, start, Step(a));
    Then(s, cap, start + [Step(a)], Step(a));
    Then(s, cap, start + [Step(a)] + [Step(a)], Step(a));
    Then(s, cap, start + [Step(a)] + [Step(a)] + [Step(a)], Step(a));
    Then(s, cap, start + [Step(a)] + [Step(a)] + [Step(a)] + [Step(a)], Step(a));
  }

  /** A shutdown whose sweeper is at work with nobody in its way. */
  predicate MaySweep(s: State) {
    s.lock == None && s.closing.Sweeping? && SweeperDone(s)
  }

  lemma SweepsOne(s: State, cap: nat, a: Aid, r: Rid)
    requires Inv(s, cap) && MaySweep(s) && a !in s.agents && r in s.closing.todo
    ensures var t := Steps(s, cap, Sweep(a, r));
      MaySweep(t) && t.closing.todo == s.closing.todo - {r}
  {
    hide SlotsOk, LockOk, RequestsOk, AgentsOk, MapOk, Five;
    SweepIsFive(s, cap, a, r);
    if s.requests[r].completed {
      AgentComesLate(s, cap, a, Shutdown, r);
    } else {
      AgentEndsCall(s, cap, a, Shutdown, r);
    }
  }

  /**
   From any state in which a shutdown has begun and nobody holds the lock, the sweep running alone ends
   every call that was left; the client closes with no call pending and nothing left for the last sweep.
   */
  lemma {:induction false} ShutdownEnds(s: State, cap: nat) returns (actions: seq<Action>)
    requires Inv(s, cap) && MaySweep(s)
    ensures var t := Steps(s, cap, actions);
      && Inv(t, cap) && t.closing == Closed && t.inMap == {} && t.leftover == {}
      && forall r :: r in t.requests ==> !t.requests[r].pending
    decreases |s.closing.todo|
  {
    hide Steps, RequestsOk, AgentsOk, LockOk, SlotsOk, Sweep;
    if s.closing.todo == {} {
      actions := [EndShutdown];
      OneStep(s, cap, EndShutdown);
      StepKeeps(s, cap, EndShutdown);
    } else {
      var r :| r in s.closing.todo;
      var a := UnusedAid(s.agents);
      SweepsOne(s, cap, a, r);
      StepsKeep(s, cap, Sweep(a, r));
      WithoutOne(s.closing.todo, r);
      var rest := ShutdownEnds(Steps(s, cap, Sweep(a, r)), cap);
      StepsThen(s, cap, Sweep(a, r), rest);
      actions := Sweep(a, r) + rest;
    }
  }

  lemma OneStep(s: State, cap: nat, a: Action)
    ensures Steps(s, cap, [a]) == Next(s, cap, a)
  {
    hide Next;
    assert [a][1..] == [];
  }

  /** And a shutdown can begin whenever the client is open and nobody holds the lock. */
  lemma ShutdownBegins(s: State, cap: nat)
    requires s.closing == Open && s.lock == None
    ensures var t := Next(s, cap, BeginShutdown); MaySweep(t) && t.closing.todo == s.inMap && t.requests == s.requests
  {
  }
}
