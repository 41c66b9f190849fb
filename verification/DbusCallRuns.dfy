/**
 What the pending-call protocol guarantees in every run: limits kept at all times, nothing done
 twice, and everything done once by the time the shutdown is over.
 */
module DbusCallRuns {
  import opened Common
  import opened DbusCalls

  /** Calls that were admitted and have not given their slot back. */
  ghost function InFlight(s: State): (r: set<Rid>) {
    set r | r in s.requests && HoldsSlot(s.requests[r]) && s.requests[r].stage != Deciding(true)
  }

  /** At no time are more calls in flight than the limit, and the counter is never negative. */
  lemma {:induction false} NeverOverLimit(cap: nat, actions: seq<Action>)
    ensures var s := Run(INITIAL, cap, actions); |InFlight(s)| <= cap && 0 <= s.inFlight <= cap + 1
  {
    hide Run, RequestsOk, AgentsOk, MapOk, ClosingOk;
    RunsKeepInv(cap, actions);
    var s := Run(INITIAL, cap, actions);
    if Overshoot(s) == 1 {
      assert InFlight(s) == Slots(s.requests) - {s.lock.value};
      WithoutOne(Slots(s.requests), s.lock.value);
    } else {
      assert InFlight(s) == Slots(s.requests);
    }
  }

  /** A call is turned away at the limit exactly when that many calls are in flight at that moment. */
  lemma {:induction false} TurnedAwayIffFull(cap: nat, actions: seq<Action>, r: Rid)
    ensures var s := Run(INITIAL, cap, actions);
      s.lock == None && s.closing == Open && r !in s.requests ==>
        Next(s, cap, Submit(r)).requests[r].stage == Deciding(|InFlight(s)| >= cap)
  {
    hide Run, RequestsOk, AgentsOk, MapOk, ClosingOk;
    RunsKeepInv(cap, actions);
    var s := Run(INITIAL, cap, actions);
    assert s.lock == None ==> InFlight(s) == Slots(s.requests);
  }

  /**
   No call is resolved twice, gives its slot back twice, or has its reference released twice;
   nothing is left to the last sweep.
   */
  lemma {:induction false} AtMostOnce(cap: nat, actions: seq<Action>, r: Rid)
    ensures var s := Run(INITIAL, cap, actions);
      && s.leftover == {}
      && (r in s.requests ==>
            && |s.requests[r].resolvedBy| <= 1 && s.requests[r].slotReleases <= 1 && s.requests[r].refReleases <= 1
            && (s.requests[r].pending ==> s.requests[r].refReleases == 0))
  {
    hide Run, Those, AgentsOk, MapOk;
    RunsKeepInv(cap, actions);
    if r in Run(INITIAL, cap, actions).requests {
      RequestAt(Run(INITIAL, cap, actions), r);
    }
  }

  /**
   Whenever a queued call has been completed or detached and everybody who set out to end it has
   finished, it was resolved once, gave its slot back once, and its reference was released once.
   Neither a shutdown nor the end of any other call is needed.
   */
  lemma {:induction false} EndedIsDoneOnce(cap: nat, actions: seq<Action>, r: Rid)
    ensures var s := Run(INITIAL, cap, actions);
      r in s.requests && s.requests[r].stage == Queued && (s.requests[r].completed || !s.requests[r].pending)
      && (forall a :: a in s.agents && s.agents[a].rid == r ==> s.agents[a].pc == Finished) ==>
        && s.requests[r].completed && !s.requests[r].pending && r !in s.inMap
        && s.requests[r].slotReleases == 1 && s.requests[r].refReleases == 1
        && s.requests[r].winner.Some? && s.requests[r].winner.value in s.agents
        && s.requests[r].resolvedBy == [s.agents[s.requests[r].winner.value].kind]
  {
    hide Run;
    RunsKeepInv(cap, actions);
    var s := Run(INITIAL, cap, actions);
    if r in s.requests && s.requests[r].stage == Queued {
      RequestAt(s, r);
      if s.requests[r].completed {
        AgentAt(s, s.requests[r].winner.value);
      }
    }
  }

  ghost predicate Quiet(s: State) {
    && s.closing == Closed
    && (forall a :: a in s.agents ==> s.agents[a].pc == Finished)
    && (forall r :: r in s.requests ==> s.requests[r].stage == Queued || s.requests[r].stage == Refused)
  }

  /**
   Once the shutdown is over and everybody has finished, every call has been resolved once and
   has given its slot back once, and every queued call's reference has been released once.
   */
  lemma {:induction false} ExactlyOnce(cap: nat, actions: seq<Action>, r: Rid)
    ensures var s := Run(INITIAL, cap, actions);
      Quiet(s) ==>
        && s.inMap == {} && s.inFlight == 0
        && (r in s.requests ==>
              && |s.requests[r].resolvedBy| == 1 && s.requests[r].slotReleases == 1
              && s.requests[r].refReleases == (if s.requests[r].stage == Queued then 1 else 0))
  {
    hide Run, AgentsOk;
    RunsKeepInv(cap, actions);
    var s := Run(INITIAL, cap, actions);
    if Quiet(s) {
      forall x | x in s.requests ensures !HoldsSlot(s.requests[x]) && !s.requests[x].pending {
        RequestAt(s, x);
      }
      if r in s.requests {
        RequestAt(s, r);
      }
      assert Slots(s.requests) == {};
    }
  }
}
