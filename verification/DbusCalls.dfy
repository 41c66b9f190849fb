/**
 The pending-call protocol of the D-Bus client: any number of calls, and any number of agents
 racing to end each of them - the reply, the caller's cancel, the deadline, the disconnect and
 the shutdown.

 A critical section, an atomic read-modify-write and the fulfilment of a promise are one step
 each. A call refused before the counter is touched leaves no request here. `winner`, `taker`,
 `resolvedBy`, `slotReleases`, `refReleases` and `leftover` are history.
 */
module DbusCalls {
  import opened Common

  type Rid = nat
  type Aid = nat

  datatype Kind = Submitter | Cancel | Deadline | Disconnect | Shutdown | Reply

  datatype Stage =
    | Deciding(atCapacity: bool)
    | Admitted
    | Releasing
    | Refusing
    | Refused
    | Queued

  /** `pending` says that the request still owns a reference to its pending call. */
  datatype Request = Request(
    stage: Stage, completed: bool, pending: bool, hooked: bool, replied: bool,
    resolvedBy: seq<Kind>, slotReleases: nat, refReleases: nat, winner: Option<Aid>, taker: Option<Aid>)

  datatype Pc = Detach | Exchange | Release | Resolve | Take | Drop | Finished

  datatype Agent = Agent(kind: Kind, rid: Rid, pc: Pc)

  datatype Closing = Open | Sweeping(todo: set<Rid>, sweeper: Option<Aid>) | Closed

  datatype State = State(
    requests: map<Rid, Request>, agents: map<Aid, Agent>, inFlight: int, inMap: set<Rid>,
    lock: Option<Rid>, closing: Closing, leftover: set<Rid>)

  datatype Action =
    | Submit(r: Rid)
    | Decide(r: Rid)
    | Fail(r: Rid)
    | Queue(r: Rid, sent: bool)
    | Refuse(r: Rid)
    | Hook(r: Rid)
    | Start(a: Aid, kind: Kind, r: Rid)
    | Step(a: Aid)
    | BeginShutdown
    | EndShutdown

  const INITIAL := State(map[], map[], 0, {}, None, Open, {})

  // ---------------------------------------------------------------- the steps

  /** The counter is raised under the lock, and the limit compared with its old value. */
  function SubmitStep(s: State, cap: nat, r: Rid): (t: State) {
    if s.lock.Some? || s.closing != Open || r in s.requests then s
    else
      var q := Request(Deciding(s.inFlight >= cap), false, false, false, false, [], 0, 0, None, None);
      s.(requests := s.requests[r := q], inFlight := s.inFlight + 1, lock := Some(r))
  }

  function SubmitterStep(s: State, a: Action, q: Request): (t: State)
    requires a.Decide? || a.Fail? || a.Queue? || a.Refuse? || a.Hook?
  {
    var r := a.r;
    match a
    case Decide(_) =>
      if s.lock != Some(r) || !q.stage.Deciding? then s
      else if q.stage.atCapacity then
        s.(requests := s.requests[r := q.(stage := Refusing, slotReleases := q.slotReleases + 1)],
           inFlight := s.inFlight - 1, lock := None)
      else s.(requests := s.requests[r := q.(stage := Admitted)], lock := None)
    case Fail(_) => if q.stage != Admitted then s else s.(requests := s.requests[r := q.(stage := Releasing)])
    case Queue(_, sent) =>
      if q.stage != Admitted || s.lock.Some? then s
      else if s.closing != Open || !sent then s.(requests := s.requests[r := q.(stage := Releasing)])
      else s.(requests := s.requests[r := q.(stage := Queued, pending := true)], inMap := s.inMap + {r})
    case Refuse(_) =>
      if q.stage == Releasing then
        s.(requests := s.requests[r := q.(stage := Refusing, slotReleases := q.slotReleases + 1)],
           inFlight := s.inFlight - 1)
      else if q.stage == Refusing then
        s.(requests := s.requests[r := q.(stage := Refused, resolvedBy := q.resolvedBy + [Submitter])])
      else s
    case Hook(_) => if q.stage == Queued then s.(requests := s.requests[r := q.(hooked := true)]) else s
  }

  predicate MayStart(s: State, kind: Kind, r: Rid) {
    match kind
    case Submitter => false
    case Cancel => r in s.requests && s.requests[r].hooked
    case Reply => r in s.requests && s.requests[r].hooked && !s.requests[r].replied
    case Deadline => s.lock == None && r in s.inMap
    case Disconnect => s.lock == None && r in s.inMap
    case Shutdown =>
      s.closing.Sweeping? && r in s.closing.todo && SweeperDone(s)
  }

  predicate SweeperDone(s: State) {
    s.closing.Sweeping? && (s.closing.sweeper.Some? ==>
      s.closing.sweeper.value in s.agents && s.agents[s.closing.sweeper.value].pc == Finished)
  }

  function StartStep(s: State, a: Aid, kind: Kind, r: Rid): (t: State) {
    if a in s.agents || r !in s.requests || !MayStart(s, kind, r) then s
    else
      var t := s.(agents := s.agents[a := Agent(kind, r, if kind == Reply then Detach else Exchange)]);
      if kind == Reply then t.(requests := s.requests[r := s.requests[r].(replied := true)])
      else if kind == Shutdown then t.(closing := Sweeping(s.closing.todo - {r}, Some(a)))
      else t
  }

  /** What follows the exchange for an agent that found the call completed already. */
  function AfterLoss(kind: Kind): (pc: Pc) {
    if kind == Cancel || kind == Reply then Finished else Take
  }

  function AgentStep(s: State, a: Aid, g: Agent, q: Request): (t: State) {
    var r := g.rid;
    match g.pc
    case Detach =>
      if s.lock.Some? then s
      else if q.pending then
        s.(requests := s.requests[r := q.(pending := false, refReleases := q.refReleases + 1, taker := Some(a))],
           inMap := s.inMap - {r}, agents := s.agents[a := g.(pc := Exchange)])
      else s.(inMap := s.inMap - {r}, agents := s.agents[a := g.(pc := Exchange)])
    case Exchange =>
      if q.completed then s.(agents := s.agents[a := g.(pc := AfterLoss(g.kind))])
      else
        s.(requests := s.requests[r := q.(completed := true, winner := Some(a))],
           agents := s.agents[a := g.(pc := Release)])
    case Release =>
      s.(requests := s.requests[r := q.(slotReleases := q.slotReleases + 1)], inFlight := s.inFlight - 1,
         agents := s.agents[a := g.(pc := Resolve)])
    case Resolve =>
      s.(requests := s.requests[r := q.(resolvedBy := q.resolvedBy + [g.kind])],
         agents := s.agents[a := g.(pc := if g.kind == Reply then Finished else Take)])
    case Take =>
      if s.lock.Some? then s
      else if q.pending then
        s.(requests := s.requests[r := q.(pending := false, taker := Some(a))],
           inMap := s.inMap - {r}, agents := s.agents[a := g.(pc := Drop)])
      else s.(agents := s.agents[a := g.(pc := Finished)])
    case Drop =>
      s.(requests := s.requests[r := q.(refReleases := q.refReleases + 1)], agents := s.agents[a := g.(pc := Finished)])
    case Finished => s
  }

  function Next(s: State, cap: nat, a: Action): (t: State) {
    match a
    case Submit(r) => SubmitStep(s, cap, r)
    case Start(i, kind, r) => StartStep(s, i, kind, r)
    case Step(i) =>
      if i in s.agents && s.agents[i].rid in s.requests
      then AgentStep(s, i, s.agents[i], s.requests[s.agents[i].rid])
      else s
    case BeginShutdown =>
      if s.closing != Open || s.lock.Some? then s else s.(closing := Sweeping(s.inMap, None))
    case EndShutdown =>
      if s.closing.Sweeping? && s.closing.todo == {} && SweeperDone(s)
      then s.(closing := Closed, leftover := s.inMap) else s
    case _ => if a.r in s.requests then SubmitterStep(s, a, s.requests[a.r]) else s
  }

  function Run(s: State, cap: nat, actions: seq<Action>): (t: State) {
    if actions == [] then s else Next(Run(s, cap, actions[..|actions| - 1]), cap, actions[|actions| - 1])
  }

  // ---------------------------------------------------------------- the invariant

  predicate HoldsSlot(q: Request) {
    q.stage.Deciding? || q.stage.Admitted? || q.stage.Releasing? || (q.stage.Queued? && q.slotReleases == 0)
  }

  ghost function Slots(requests: map<Rid, Request>): (r: set<Rid>) {
    Those(requests, HoldsSlot)
  }

  /** Before it is queued, a request belongs to its submitter alone. */
  predicate SubmitterOk(q: Request) {
    q.stage != Queued ==>
      && !q.pending && !q.hooked && !q.completed && q.refReleases == 0
      && q.slotReleases == (if q.stage == Refusing || q.stage == Refused then 1 else 0)
      && q.resolvedBy == (if q.stage == Refused then [Submitter] else [])
  }

  /** The call is completed by its winner, who alone gives back the slot and fulfils the promise. */
  predicate WinnerOk(r: Rid, q: Request, agents: map<Aid, Agent>) {
    q.stage == Queued ==>
      if !q.completed then q.slotReleases == 0 && q.resolvedBy == []
      else
        && q.winner.Some? && q.winner.value in agents && agents[q.winner.value].rid == r
        && (var pc := agents[q.winner.value].pc;
            && pc != Detach && pc != Exchange
            && q.slotReleases == (if pc == Release then 0 else 1)
            && q.resolvedBy == (if pc == Release || pc == Resolve then [] else [agents[q.winner.value].kind]))
  }

  /** The reference is released by the agent that took it from the request. */
  predicate TakerOk(r: Rid, q: Request, agents: map<Aid, Agent>) {
    q.stage == Queued ==>
      if q.pending then q.refReleases == 0
      else
        && q.taker.Some? && q.taker.value in agents && agents[q.taker.value].rid == r
        && (var pc := agents[q.taker.value].pc;
            pc != Detach && pc != Take && q.refReleases == (if pc == Drop then 0 else 1))
        && (q.completed || agents[q.taker.value].pc == Exchange)
        && (var g := agents[q.taker.value]; g.pc != Drop && g.pc != Finished ==> g.kind == Reply)
  }

  predicate AgentOk(a: Aid, g: Agent, requests: map<Rid, Request>) {
    && g.rid in requests && requests[g.rid].stage == Queued
    && (g.pc != Detach && g.pc != Exchange ==> requests[g.rid].completed)
    && (g.pc == Release || g.pc == Resolve ==> requests[g.rid].winner == Some(a))
    && (g.pc == Drop ==> requests[g.rid].taker == Some(a) && !requests[g.rid].pending)
    && (g.pc == Drop || g.pc == Take ==> g.kind != Reply)
    && (g.pc == Detach ==> g.kind == Reply)
    && (g.kind == Reply && g.pc != Detach ==> !requests[g.rid].pending)
    && (g.pc == Finished && requests[g.rid].winner == Some(a) ==> !requests[g.rid].pending)
  }

  ghost predicate RequestsOk(s: State) {
    forall r :: r in s.requests ==> RequestOk(r, s.requests[r], s.agents)
  }

  ghost predicate RequestOk(r: Rid, q: Request, agents: map<Aid, Agent>) {
    SubmitterOk(q) && WinnerOk(r, q, agents) && TakerOk(r, q, agents)
  }

  ghost predicate AgentsOk(s: State) {
    forall a :: a in s.agents ==> AgentOk(a, s.agents[a], s.requests)
  }

  /** `m_pending` holds exactly the requests that own a reference. */
  ghost predicate MapOk(s: State) {
    forall r :: r in s.inMap <==> r in s.requests && s.requests[r].pending
  }

  ghost predicate LockOk(s: State) {
    && (s.lock.Some? ==> s.lock.value in s.requests)
    && (forall r :: r in s.requests ==> (s.requests[r].stage.Deciding? <==> s.lock == Some(r)))
  }

  function Overshoot(s: State): (n: nat) {
    if s.lock.Some? && s.lock.value in s.requests && s.requests[s.lock.value].stage == Deciding(true) then 1 else 0
  }

  ghost predicate SlotsOk(s: State, cap: nat) {
    s.inFlight == |Slots(s.requests)| <= cap + Overshoot(s)
  }

  /** The sweeper has still to take this request's reference. */
  predicate BeingSwept(s: State, r: Rid) {
    && s.closing.Sweeping? && s.closing.sweeper.Some? && s.closing.sweeper.value in s.agents
    && var g := s.agents[s.closing.sweeper.value];
       g.rid == r && g.kind == Shutdown && (g.pc == Exchange || g.pc == Release || g.pc == Resolve || g.pc == Take)
  }

  ghost predicate ClosingOk(s: State) {
    && s.leftover == {}
    && (s.closing.Sweeping? ==> forall r :: r in s.inMap ==> r in s.closing.todo || BeingSwept(s, r))
    && (s.closing.Sweeping? ==> forall r :: r in s.closing.todo ==> r in s.requests && s.requests[r].stage == Queued)
    && (s.closing.Closed? ==> s.inMap == {})
  }

  ghost predicate Inv(s: State, cap: nat) {
    RequestsOk(s) && AgentsOk(s) && MapOk(s) && LockOk(s) && SlotsOk(s, cap) && ClosingOk(s)
  }

  // ---------------------------------------------------------------- every step keeps it

  lemma SubmitKeeps(s: State, cap: nat, r: Rid)
    requires Inv(s, cap)
    ensures Inv(SubmitStep(s, cap, r), cap)
  {
    hide Those;
    var q := Request(Deciding(s.inFlight >= cap), false, false, false, false, [], 0, 0, None, None);
    ThoseAfter(s.requests, r, q, HoldsSlot);
  }

  /** Agents only know queued requests, so a submitter changes its own request freely before that. */
  lemma OwnRequestChanges(s: State, t: State, r: Rid, q: Request)
    requires RequestsOk(s) && AgentsOk(s) && r in s.requests
    requires s.requests[r].stage != Queued || q == s.requests[r] || q == s.requests[r].(hooked := true)
    requires t.requests == s.requests[r := q] && t.agents == s.agents && RequestOk(r, q, s.agents)
    ensures RequestsOk(t) && AgentsOk(t)
  {
    hide SubmitterOk, WinnerOk, TakerOk;
  }

  lemma SubmitterKeeps(s: State, cap: nat, a: Action)
    requires Inv(s, cap) && (a.Decide? || a.Fail? || a.Queue? || a.Refuse? || a.Hook?) && a.r in s.requests
    ensures Inv(SubmitterStep(s, a, s.requests[a.r]), cap)
  {
    hide Those, RequestsOk, AgentsOk, RequestOk, ClosingOk;
    var r, q := a.r, s.requests[a.r];
    var t := SubmitterStep(s, a, q);
    RequestAt(s, r);
    SubmitterRequest(s, a);
    assert r in t.requests && t.requests == s.requests[r := t.requests[r]];
    ThoseAfter(s.requests, r, t.requests[r], HoldsSlot);
    OwnRequestChanges(s, t, r, t.requests[r]);
    ClosingStays(s, t);
  }

  lemma ClosingStays(s: State, t: State)
    requires ClosingOk(s) && t.closing == s.closing && t.leftover == s.leftover && t.agents == s.agents
    requires s.closing != Open ==> t.inMap == s.inMap
    requires forall r :: r in s.requests && s.requests[r].stage == Queued ==>
      r in t.requests && t.requests[r].stage == Queued
    ensures ClosingOk(t)
  {
    assert forall r :: BeingSwept(t, r) == BeingSwept(s, r);
  }

  lemma SubmitterRequest(s: State, a: Action)
    requires (a.Decide? || a.Fail? || a.Queue? || a.Refuse? || a.Hook?) && a.r in s.requests
    requires RequestOk(a.r, s.requests[a.r], s.agents)
    ensures var t := SubmitterStep(s, a, s.requests[a.r]);
      a.r in t.requests && RequestOk(a.r, t.requests[a.r], s.agents)
  {
  }

  lemma RequestAt(s: State, r: Rid)
    requires RequestsOk(s) && r in s.requests
    ensures RequestOk(r, s.requests[r], s.agents) && SubmitterOk(s.requests[r])
  {
  }

  /** A step of agent `a` on its request, as far as everybody else can tell. */
  lemma OthersStay(s: State, t: State, a: Aid, r: Rid)
    requires RequestsOk(s) && AgentsOk(s) && a in t.agents && r in t.requests && t.agents[a].rid == r
    requires t.agents == s.agents[a := t.agents[a]] && t.requests == s.requests[r := t.requests[r]]
    requires a in s.agents ==> s.agents[a].rid == r
    requires r in s.requests && s.requests[r].stage == Queued && t.requests[r].stage == Queued
    requires s.requests[r].completed ==> t.requests[r].completed && t.requests[r].winner == s.requests[r].winner
    requires t.requests[r].winner == s.requests[r].winner || t.requests[r].winner == Some(a)
    requires !s.requests[r].pending ==> !t.requests[r].pending && t.requests[r].taker == s.requests[r].taker
    requires RequestOk(r, t.requests[r], t.agents) && AgentOk(a, t.agents[a], t.requests)
    ensures RequestsOk(t) && AgentsOk(t)
  {
    forall x | x in t.requests ensures RequestOk(x, t.requests[x], t.agents) {
      if x != r {
        OtherRequest(s, t, a, r, x);
      }
    }
    forall b | b in t.agents ensures AgentOk(b, t.agents[b], t.requests) {
      if b != a {
        assert AgentOk(b, s.agents[b], s.requests);
      }
    }
  }

  lemma OtherRequest(s: State, t: State, a: Aid, r: Rid, x: Rid)
    requires RequestsOk(s) && x in s.requests && x in t.requests && x != r && t.requests[x] == s.requests[x]
    requires a in t.agents && t.agents == s.agents[a := t.agents[a]] && (a in s.agents ==> s.agents[a].rid == r)
    ensures RequestOk(x, t.requests[x], t.agents)
  {
    assert RequestOk(x, s.requests[x], s.agents);
    var q := s.requests[x];
    assert q.stage == Queued && q.completed ==> q.winner.value != a || a !in s.agents;
  }

  /** The request and the agent after the agent's own step. */
  lemma AgentRequest(s: State, a: Aid)
    requires a in s.agents && AgentOk(a, s.agents[a], s.requests)
    requires RequestOk(s.agents[a].rid, s.requests[s.agents[a].rid], s.agents)
    ensures var r := s.agents[a].rid;
      var t := AgentStep(s, a, s.agents[a], s.requests[r]);
      && a in t.agents && r in t.requests && t.agents[a].rid == r
      && t.agents == s.agents[a := t.agents[a]] && t.requests == s.requests[r := t.requests[r]]
      && t.requests[r].stage == Queued
      && (s.requests[r].completed ==> t.requests[r].completed && t.requests[r].winner == s.requests[r].winner)
      && (t.requests[r].winner == s.requests[r].winner || t.requests[r].winner == Some(a))
      && (!s.requests[r].pending ==> !t.requests[r].pending && t.requests[r].taker == s.requests[r].taker)
      && RequestOk(r, t.requests[r], t.agents) && AgentOk(a, t.agents[a], t.requests)
  {
    match s.agents[a].pc
    case Detach =>
    case Exchange =>
    case Release =>
    case Resolve =>
    case Take =>
    case Drop =>
    case Finished =>
  }

  lemma AgentKeeps(s: State, cap: nat, a: Aid)
    requires Inv(s, cap) && a in s.agents && s.agents[a].rid in s.requests
    ensures Inv(AgentStep(s, a, s.agents[a], s.requests[s.agents[a].rid]), cap)
  {
    hide Those, RequestsOk, AgentsOk, RequestOk, ClosingOk;
    var r := s.agents[a].rid;
    var t := AgentStep(s, a, s.agents[a], s.requests[r]);
    AgentAt(s, a);
    RequestAt(s, r);
    AgentRequest(s, a);
    OthersStay(s, t, a, r);
    ThoseAfter(s.requests, r, t.requests[r], HoldsSlot);
    WinnerHasSlot(s, a);
    SweepGoesOn(s, a);
  }

  lemma AgentAt(s: State, a: Aid)
    requires AgentsOk(s) && a in s.agents
    ensures AgentOk(a, s.agents[a], s.requests)
  {
  }

  /** The agent about to give back the slot is the winner, and the slot is still held. */
  lemma WinnerHasSlot(s: State, a: Aid)
    requires RequestsOk(s) && AgentsOk(s) && a in s.agents
    ensures s.agents[a].pc == Release ==>
      HoldsSlot(s.requests[s.agents[a].rid]) && s.requests[s.agents[a].rid].slotReleases == 0
  {
    assert AgentOk(a, s.agents[a], s.requests);
    assert RequestOk(s.agents[a].rid, s.requests[s.agents[a].rid], s.agents);
  }

  lemma SweepGoesOn(s: State, a: Aid)
    requires ClosingOk(s) && AgentsOk(s) && MapOk(s) && a in s.agents && s.agents[a].rid in s.requests
    ensures ClosingOk(AgentStep(s, a, s.agents[a], s.requests[s.agents[a].rid]))
  {
    var t := AgentStep(s, a, s.agents[a], s.requests[s.agents[a].rid]);
    assert AgentOk(a, s.agents[a], s.requests);
    if t.closing.Sweeping? {
      forall r | r in t.inMap ensures r in t.closing.todo || BeingSwept(t, r) {
        assert r in s.inMap;
      }
    }
  }

  lemma StartKeeps(s: State, cap: nat, a: Aid, kind: Kind, r: Rid)
    requires Inv(s, cap)
    ensures Inv(StartStep(s, a, kind, r), cap)
  {
    if a !in s.agents && r in s.requests && MayStart(s, kind, r) {
      hide RequestsOk, AgentsOk, RequestOk, ClosingOk, MapOk, LockOk, SlotsOk, AgentOk, SubmitterOk;
      var t := StartStep(s, a, kind, r);
      RequestAt(s, r);
      StartedIsQueued(s, kind, r);
      assert t.requests == s.requests[r := t.requests[r]];
      StartedRequest(s, a, kind, r);
      OthersStay(s, t, a, r);
      CountersStay(s, t, cap, r);
      SweepStarts(s, a, kind, r);
    }
  }

  lemma CountersStay(s: State, t: State, cap: nat, r: Rid)
    requires MapOk(s) && LockOk(s) && SlotsOk(s, cap) && r in s.requests && r in t.requests
    requires t.requests == s.requests[r := t.requests[r]] && t.requests[r].stage == s.requests[r].stage
    requires t.requests[r].pending == s.requests[r].pending && t.requests[r].slotReleases == s.requests[r].slotReleases
    requires t.inMap == s.inMap && t.lock == s.lock && t.inFlight == s.inFlight
    ensures MapOk(t) && LockOk(t) && SlotsOk(t, cap)
  {
    hide Those;
    ThoseAfter(s.requests, r, t.requests[r], HoldsSlot);
  }

  /** Only queued requests can be ended by anyone but their submitter. */
  lemma StartedIsQueued(s: State, kind: Kind, r: Rid)
    requires RequestsOk(s) && MapOk(s) && ClosingOk(s) && r in s.requests && MayStart(s, kind, r)
    ensures s.requests[r].stage == Queued
  {
  }

  lemma StartedRequest(s: State, a: Aid, kind: Kind, r: Rid)
    requires a !in s.agents && r in s.requests && MayStart(s, kind, r)
    requires s.requests[r].stage == Queued && RequestOk(r, s.requests[r], s.agents)
    ensures var t := StartStep(s, a, kind, r);
      && a in t.agents && r in t.requests && t.agents[a].rid == r
      && RequestOk(r, t.requests[r], t.agents) && AgentOk(a, t.agents[a], t.requests)
  {
  }

  lemma SweepStarts(s: State, a: Aid, kind: Kind, r: Rid)
    requires ClosingOk(s) && a !in s.agents && r in s.requests && MayStart(s, kind, r)
    ensures ClosingOk(StartStep(s, a, kind, r))
  {
    var t := StartStep(s, a, kind, r);
    if t.closing.Sweeping? {
      forall x | x in t.inMap ensures x in t.closing.todo || BeingSwept(t, x) {
        assert x in s.closing.todo || BeingSwept(s, x);
      }
    }
  }

  lemma ShutdownKeeps(s: State, cap: nat, a: Action)
    requires Inv(s, cap) && (a.BeginShutdown? || a.EndShutdown?)
    ensures Inv(Next(s, cap, a), cap)
  {
    hide Those, AgentOk, WinnerOk, TakerOk;
    if a.BeginShutdown? && s.closing == Open && s.lock == None {
      forall r | r in s.inMap ensures r in s.requests && s.requests[r].stage == Queued {
        RequestAt(s, r);
      }
    }
  }

  lemma StepKeeps(s: State, cap: nat, a: Action)
    requires Inv(s, cap)
    ensures Inv(Next(s, cap, a), cap)
  {
    hide Inv, SubmitStep, StartStep, AgentStep, SubmitterStep;
    match a
    case Submit(r) => SubmitKeeps(s, cap, r);
    case Start(i, kind, r) => StartKeeps(s, cap, i, kind, r);
    case Step(i) =>
      if i in s.agents && s.agents[i].rid in s.requests { AgentKeeps(s, cap, i); }
    case BeginShutdown => ShutdownKeeps(s, cap, a);
    case EndShutdown => ShutdownKeeps(s, cap, a);
    case _ => if a.r in s.requests { SubmitterKeeps(s, cap, a); }
  }

  lemma {:induction false} RunsKeepInv(cap: nat, actions: seq<Action>)
    ensures Inv(Run(INITIAL, cap, actions), cap)
  {
    if actions == [] {
      assert Slots(map[]) == {};
    } else {
      hide Inv, Next;
      RunsKeepInv(cap, actions[..|actions| - 1]);
      StepKeeps(Run(INITIAL, cap, actions[..|actions| - 1]), cap, actions[|actions| - 1]);
    }
  }
}
