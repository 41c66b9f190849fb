/**
 The bounded output endpoint: blocking writers served by ticket, one sending worker, failure
 and shutdown.

 `Endpoint` is what the mutex protects and `OutputQueue` the object; the functions on endpoint
 values say what its critical sections do. `State` puts them together with the waiting writers
 and the worker. Every critical section and every send is one step.
 */
module DbusOutput {
  import opened Common

  type Payload = seq<Byte>

  const INT_MAX: nat := 0x7fff_ffff

  datatype Config = Config(maxMessageBytes: nat, maxQueuedMessages: nat, maxQueuedBytes: nat)

  predicate ValidLimits(c: Config) {
    && c.maxMessageBytes != 0 && c.maxMessageBytes <= INT_MAX
    && c.maxQueuedMessages != 0 && c.maxQueuedBytes != 0
    && c.maxQueuedBytes >= c.maxMessageBytes
  }

  datatype Endpoint = Endpoint(
    queue: seq<Payload>, pendingBytes: int, nextTicket: nat, servingTicket: nat, failed: bool, stopping: bool,
    written: nat, handedOver: nat, shownMessages: nat, shownBytes: int, unsentMessages: nat, unsentBytes: int)

  const EMPTY := Endpoint([], 0, 0, 0, false, false, 0, 0, 0, 0, 0, 0)

  datatype Entry = TooLong | Blocked(ticket: nat) | Accepted | Failed | Stopped

  // ---------------------------------------------------------------- critical sections

  predicate HasSpace(c: Config, e: Endpoint, size: nat) {
    |e.queue| < c.maxQueuedMessages && size <= c.maxQueuedBytes - e.pendingBytes
  }

  predicate Running(e: Endpoint) {
    !e.stopping && !e.failed
  }

  /** The end of `write`, behind the wait: refuse, or put the payload in the queue. */
  function Admit(e: Endpoint, p: Payload): (r: (Endpoint, Entry)) {
    if e.failed then (e, Failed)
    else if e.stopping then (e, Stopped)
    else
      (e.(queue := e.queue + [p], pendingBytes := e.pendingBytes + |p|, written := e.written + 1,
          shownMessages := |e.queue| + 1, shownBytes := e.pendingBytes + |p|), Accepted)
  }

  /** A writer takes the lock for the first time. */
  function Enter(c: Config, e: Endpoint, p: Payload): (r: (Endpoint, Entry)) {
    if |p| > c.maxMessageBytes then (e, TooLong)
    else if Running(e) && (e.nextTicket != e.servingTicket || !HasSpace(c, e, |p|)) then
      (e.(nextTicket := e.nextTicket + 1), Blocked(e.nextTicket))
    else Admit(e, p)
  }

  /** What a blocked writer waits for. */
  predicate MayLeave(c: Config, e: Endpoint, ticket: nat, size: nat) {
    !Running(e) || (ticket == e.servingTicket && HasSpace(c, e, size))
  }

  function Leave(e: Endpoint, p: Payload): (r: (Endpoint, Entry)) {
    Admit(e.(servingTicket := e.servingTicket + 1), p)
  }

  function Popped(e: Endpoint): (r: Endpoint)
    requires e.queue != []
  {
    e.(queue := e.queue[1..], pendingBytes := e.pendingBytes - |e.queue[0]|, handedOver := e.handedOver + 1,
       shownMessages := |e.queue| - 1, shownBytes := e.pendingBytes - |e.queue[0]|)
  }

  function Accounted(e: Endpoint): (r: Endpoint) {
    e.(unsentMessages := |e.queue|, unsentBytes := e.pendingBytes,
       shownMessages := |e.queue|, shownBytes := e.pendingBytes)
  }

  function Total(queue: seq<Payload>): (n: nat) {
    if queue == [] then 0 else |queue[0]| + Total(queue[1..])
  }

  /** The payload stands behind everything that was queued, and the bytes grow by its size. */
  predicate Joined(before: seq<Payload>, after: seq<Payload>, p: Payload) {
    after == before + [p] && Total(after) == Total(before) + |p|
  }

  predicate WithinLimits(c: Config, e: Endpoint) {
    && |e.queue| <= c.maxQueuedMessages && e.pendingBytes == Total(e.queue) <= c.maxQueuedBytes
    && e.shownMessages == |e.queue| && e.shownBytes == e.pendingBytes
  }

  lemma {:induction false} TotalOfAppend(queue: seq<Payload>, p: Payload)
    ensures Total(queue + [p]) == Total(queue) + |p|
  {
    if queue == [] {
      assert [p][1..] == [];
    } else {
      assert (queue + [p])[1..] == queue[1..] + [p];
      TotalOfAppend(queue[1..], p);
    }
  }

  class OutputQueue {
    const config: Config
    var queue: seq<Payload>
    var pendingBytes: int
    var nextTicket: nat
    var servingTicket: nat
    var failed: bool
    var stopping: bool
    var written: nat
    var handedOver: nat
    var shownMessages: nat
    var shownBytes: int
    var unsentMessages: nat
    var unsentBytes: int

    function Value(): (e: Endpoint)
      reads this
    {
      Endpoint(queue, pendingBytes, nextTicket, servingTicket, failed, stopping,
               written, handedOver, shownMessages, shownBytes, unsentMessages, unsentBytes)
    }

    /** The limits hold, and while the endpoint runs no ticket is served that was not given out. */
    predicate Valid()
      reads this
    {
      WithinLimits(config, Value()) && (Running(Value()) ==> servingTicket <= nextTicket)
    }

    constructor (config: Config)
      requires ValidLimits(config)
      ensures Valid() && Value() == EMPTY && this.config == config
    {
      this.config := config;
      queue, pendingBytes, nextTicket, servingTicket, failed, stopping := [], 0, 0, 0, false, false;
      written, handedOver, shownMessages, shownBytes, unsentMessages, unsentBytes := 0, 0, 0, 0, 0, 0;
    }

    /** `write` up to the wait; `Blocked` means that the writer waits with that ticket. */
    method BeginWrite(payload: Payload) returns (r: Entry)
      requires Valid()
      modifies this
      ensures Valid()
      ensures r == TooLong <==> |payload| > config.maxMessageBytes
      ensures r == Failed <==> |payload| <= config.maxMessageBytes && old(failed)
      ensures r == Stopped <==> |payload| <= config.maxMessageBytes && !old(failed) && old(stopping)
      ensures r == Accepted <==>
        && |payload| <= config.maxMessageBytes && !old(failed) && !old(stopping)
        && old(servingTicket) == old(nextTicket)
        && |old(queue)| < config.maxQueuedMessages && Total(old(queue)) + |payload| <= config.maxQueuedBytes
      ensures r == Accepted ==>
        Joined(old(queue), queue, payload) && nextTicket == old(nextTicket) && servingTicket == old(servingTicket)
      ensures r != Accepted ==> Value() == old(Value()).(nextTicket := nextTicket)
      ensures !r.Blocked? ==> nextTicket == old(nextTicket)
      ensures r.Blocked? ==>
        && old(nextTicket) == r.ticket < nextTicket
        && (old(servingTicket) < r.ticket
            || |queue| == config.maxQueuedMessages || Total(queue) + |payload| > config.maxQueuedBytes)
      ensures (Value(), r) == Enter(config, old(Value()), payload)
    {
      if |payload| > config.maxMessageBytes {
        return TooLong;
      }
      var space := |queue| < config.maxQueuedMessages && |payload| <= config.maxQueuedBytes - pendingBytes;
      if !stopping && !failed && (nextTicket != servingTicket || !space) {
        var ticket := nextTicket;
        nextTicket := nextTicket + 1;
        return Blocked(ticket);
      }
      r := FinishWrite(payload);
    }

    /** `write` after the wait. */
    method EndWrite(ticket: nat, payload: Payload) returns (r: Entry)
      requires Valid() && MayLeave(config, Value(), ticket, |payload|)
      requires Running(Value()) ==> ticket < nextTicket
      modifies this
      ensures Valid()
      ensures servingTicket == old(servingTicket) + 1 && nextTicket == old(nextTicket)
      ensures r == Failed <==> old(failed)
      ensures r == Stopped <==> !old(failed) && old(stopping)
      ensures r == Accepted <==> !old(failed) && !old(stopping)
      ensures r == Accepted ==> Joined(old(queue), queue, payload) && ticket == old(servingTicket)
      ensures r != Accepted ==> queue == old(queue)
      ensures (Value(), r) == Leave(old(Value()), payload)
    {
      servingTicket := servingTicket + 1;
      r := FinishWrite(payload);
    }

    method FinishWrite(payload: Payload) returns (r: Entry)
      requires WithinLimits(config, Value())
      requires Running(Value()) ==> HasSpace(config, Value(), |payload|)
      modifies this
      ensures WithinLimits(config, Value())
      ensures r == Accepted ==> Joined(old(queue), queue, payload)
      ensures r != Accepted ==> queue == old(queue)
      ensures (Value(), r) == Admit(old(Value()), payload)
    {
      if failed {
        return Failed;
      }
      if stopping {
        return Stopped;
      }
      TotalOfAppend(queue, payload);
      pendingBytes := pendingBytes + |payload|;
      queue := queue + [payload];
      written := written + 1;
      shownMessages, shownBytes := |queue|, pendingBytes;
      r := Accepted;
    }

    /** The first payload leaves with its bytes, and is counted as handed over. */
    method Pop()
      requires Valid() && queue != []
      modifies this
      ensures Valid()
      ensures old(queue) == [old(queue)[0]] + queue && old(Total(queue)) == |old(queue)[0]| + Total(queue)
      ensures handedOver + |queue| == old(handedOver + |queue|) && written == old(written)
      ensures Value() == Popped(old(Value()))
    {
      pendingBytes := pendingBytes - |queue[0]|;
      queue := queue[1..];
      handedOver := handedOver + 1;
      shownMessages, shownBytes := |queue|, pendingBytes;
    }

    method Account()
      requires Valid()
      modifies this
      ensures Valid()
      ensures Value() == Accounted(old(Value()))
    {
      unsentMessages, unsentBytes := |queue|, pendingBytes;
      shownMessages, shownBytes := |queue|, pendingBytes;
    }
  }

  // ---------------------------------------------------------------- writers, worker, shutdown

  datatype Worker = Looking | Holding(payload: Payload) | Popping | Dispatching | Exited

  /** `arrivals` are the payloads in the order in which their writers first took the lock and were not refused. */
  datatype State = State(
    e: Endpoint, waiting: map<nat, Payload>, worker: Worker, stopFlag: bool, closed: bool,
    arrivals: seq<Payload>, admitted: seq<Payload>, sent: seq<Payload>)

  datatype Action =
    | Write(payload: Payload)
    | Wake(ticket: nat)
    | Look(expired: bool, libdbusFull: bool)
    | Send(ok: bool)
    | PopFront
    | Dispatch(ok: bool)
    | Stop
    | RaiseStopFlag
    | Close

  const INITIAL := State(EMPTY, map[], Looking, false, false, [], [], [])

  function Fail(s: State): (t: State) {
    s.(e := s.e.(failed := true), worker := Exited)
  }

  function WriteStep(c: Config, s: State, p: Payload): (t: State) {
    var (e, entry) := Enter(c, s.e, p);
    match entry
    case Blocked(ticket) => s.(e := e, waiting := s.waiting[ticket := p], arrivals := s.arrivals + [p])
    case Accepted => s.(e := e, arrivals := s.arrivals + [p], admitted := s.admitted + [p])
    case _ => s
  }

  function WakeStep(c: Config, s: State, ticket: nat): (t: State) {
    if ticket !in s.waiting || !MayLeave(c, s.e, ticket, |s.waiting[ticket]|) then s
    else
      var p := s.waiting[ticket];
      var (e, entry) := Leave(s.e, p);
      var t := s.(e := e, waiting := s.waiting - {ticket});
      if entry == Accepted then t.(admitted := s.admitted + [p]) else t
  }

  function WorkerStep(s: State, a: Action): (t: State)
    requires a.Look? || a.Send? || a.PopFront? || a.Dispatch?
  {
    match a
    case Look(expired, libdbusFull) =>
      if s.worker != Looking then s
      else if s.stopFlag && (s.e.queue == [] || expired) then s.(e := Accounted(s.e), worker := Exited)
      else if s.e.queue != [] && !libdbusFull then s.(worker := Holding(s.e.queue[0]))
      else s.(worker := Dispatching)
    case Send(ok) =>
      if !s.worker.Holding? then s
      else if !ok then Fail(s)
      else s.(sent := s.sent + [s.worker.payload], worker := Popping)
    case PopFront => if s.worker != Popping || s.e.queue == [] then s else s.(e := Popped(s.e), worker := Dispatching)
    case Dispatch(ok) => if s.worker != Dispatching then s else if ok then s.(worker := Looking) else Fail(s)
  }

  function Next(c: Config, s: State, a: Action): (t: State) {
    match a
    case Write(p) => WriteStep(c, s, p)
    case Wake(ticket) => WakeStep(c, s, ticket)
    case Stop => s.(e := s.e.(stopping := true))
    case RaiseStopFlag => if s.e.stopping then s.(stopFlag := true) else s
    case Close => if s.stopFlag && s.worker == Exited then s.(e := Accounted(s.e), closed := true) else s
    case _ => WorkerStep(s, a)
  }

  function Run(c: Config, actions: seq<Action>): (t: State) {
    if actions == [] then INITIAL else Next(c, Run(c, actions[..|actions| - 1]), actions[|actions| - 1])
  }

  // ---------------------------------------------------------------- the invariant

  /** While running, the waiting writers hold the tickets from the one served on, in order of arrival. */
  ghost predicate TicketsOk(c: Config, s: State) {
    Running(s.e) ==>
      && s.e.servingTicket <= s.e.nextTicket
      && |s.arrivals| == |s.admitted| + s.e.nextTicket - s.e.servingTicket
      && (forall t :: t in s.waiting <==> s.e.servingTicket <= t < s.e.nextTicket)
      && (forall t :: t in s.waiting ==> WaitsInOrder(c, s, t))
  }

  predicate WaitsInOrder(c: Config, s: State, t: nat) {
    var i := |s.admitted| + t - s.e.servingTicket;
    && 0 <= i < |s.arrivals| && t in s.waiting && s.waiting[t] == s.arrivals[i] && |s.waiting[t]| <= c.maxMessageBytes
  }

  predicate WorkerOk(s: State) {
    && (s.worker.Holding? ==> s.e.queue != [] && s.e.queue[0] == s.worker.payload)
    && (s.worker == Popping ==> s.e.queue != [])
    && s.admitted == s.sent + (if s.worker == Popping then s.e.queue[1..] else s.e.queue)
    && s.e.written == |s.admitted| && s.e.handedOver + |s.e.queue| == |s.admitted|
  }

  predicate ClosingOk(s: State) {
    && (s.stopFlag ==> s.e.stopping)
    && (s.closed ==>
          && s.worker == Exited && s.stopFlag
          && s.e.unsentMessages == |s.e.queue| && s.e.unsentBytes == s.e.pendingBytes)
  }

  ghost predicate Inv(c: Config, s: State) {
    WithinLimits(c, s.e) && s.admitted <= s.arrivals && TicketsOk(c, s) && WorkerOk(s) && ClosingOk(s)
  }

  // ---------------------------------------------------------------- every step keeps it

  /** A payload joins the queue: the limits and the worker's view hold on. */
  lemma JoinsQueue(c: Config, s: State, t: State, p: Payload)
    requires WithinLimits(c, s.e) && WorkerOk(s) && HasSpace(c, s.e, |p|)
    requires t.e.queue == s.e.queue + [p] && t.e.pendingBytes == s.e.pendingBytes + |p|
    requires t.e.written == s.e.written + 1 && t.e.handedOver == s.e.handedOver
    requires t.e.shownMessages == |t.e.queue| && t.e.shownBytes == t.e.pendingBytes
    requires t.admitted == s.admitted + [p] && t.sent == s.sent && t.worker == s.worker
    ensures WithinLimits(c, t.e) && WorkerOk(t)
  {
    hide Total;
    TotalOfAppend(s.e.queue, p);
  }

  lemma SameQueue(c: Config, s: State, t: State)
    requires WithinLimits(c, s.e) && WorkerOk(s)
    requires t.e.queue == s.e.queue && t.e.pendingBytes == s.e.pendingBytes
    requires t.e.written == s.e.written && t.e.handedOver == s.e.handedOver
    requires t.e.shownMessages == s.e.shownMessages && t.e.shownBytes == s.e.shownBytes
    requires t.admitted == s.admitted && t.sent == s.sent && t.worker == s.worker
    ensures WithinLimits(c, t.e) && WorkerOk(t)
  {
    hide Total;
  }

  lemma WriteKeeps(c: Config, s: State, p: Payload)
    requires Inv(c, s)
    ensures Inv(c, WriteStep(c, s, p))
  {
    hide WithinLimits, WorkerOk;
    var t := WriteStep(c, s, p);
    if Running(s.e) {
      if t.admitted != s.admitted {
        JoinsQueue(c, s, t, p);
      } else {
        SameQueue(c, s, t);
      }
      forall i | i in t.waiting ensures WaitsInOrder(c, t, i) {
        assert i in s.waiting ==> WaitsInOrder(c, s, i);
      }
      assert s.e.servingTicket == s.e.nextTicket ==> s.admitted == s.arrivals;
    }
  }

  lemma WakeKeeps(c: Config, s: State, ticket: nat)
    requires Inv(c, s)
    ensures Inv(c, WakeStep(c, s, ticket))
  {
    hide WithinLimits, WorkerOk;
    if ticket in s.waiting && MayLeave(c, s.e, ticket, |s.waiting[ticket]|) {
      var p, t := s.waiting[ticket], WakeStep(c, s, ticket);
      if Running(s.e) {
        assert WaitsInOrder(c, s, ticket);
        JoinsQueue(c, s, t, p);
        assert p == s.arrivals[|s.admitted|];
        forall i | i in t.waiting ensures WaitsInOrder(c, t, i) {
          assert WaitsInOrder(c, s, i);
        }
      } else {
        SameQueue(c, s, t);
      }
    }
  }

  lemma OwnStepKeeps(c: Config, s: State, a: Action)
    requires Inv(c, s) && (a.Stop? || a.RaiseStopFlag? || a.Close?)
    ensures Inv(c, Next(c, s, a))
  {
    hide Total;
    var t := Next(c, s, a);
    WaitersStay(c, s, t);
  }

  lemma WorkerKeeps(c: Config, s: State, a: Action)
    requires Inv(c, s) && (a.Look? || a.Send? || a.PopFront? || a.Dispatch?)
    ensures Inv(c, WorkerStep(s, a))
  {
    hide TicketsOk, WithinLimits, WorkerOk, ClosingOk;
    WaitersStay(c, s, WorkerStep(s, a));
    if a.PopFront? {
      PopKeeps(c, s);
    } else {
      LooksKeep(c, s, a);
    }
  }

  lemma PopKeeps(c: Config, s: State)
    requires WithinLimits(c, s.e) && WorkerOk(s) && ClosingOk(s)
    ensures var t := WorkerStep(s, PopFront); WithinLimits(c, t.e) && WorkerOk(t) && ClosingOk(t)
  {
  }

  lemma LooksKeep(c: Config, s: State, a: Action)
    requires WithinLimits(c, s.e) && WorkerOk(s) && ClosingOk(s) && (a.Look? || a.Send? || a.Dispatch?)
    ensures var t := WorkerStep(s, a); WithinLimits(c, t.e) && WorkerOk(t) && ClosingOk(t)
  {
    hide Total;
    if s.worker.Holding? {
    }
  }

  lemma WaitersStay(c: Config, s: State, t: State)
    requires TicketsOk(c, s) && (Running(t.e) ==> Running(s.e))
    requires t.waiting == s.waiting && t.arrivals == s.arrivals && t.admitted == s.admitted
    requires t.e.servingTicket == s.e.servingTicket && t.e.nextTicket == s.e.nextTicket
    ensures TicketsOk(c, t)
  {
    if Running(t.e) {
      forall i | i in t.waiting ensures WaitsInOrder(c, t, i) {
        assert WaitsInOrder(c, s, i);
      }
    }
  }

  lemma StepKeeps(c: Config, s: State, a: Action)
    requires Inv(c, s)
    ensures Inv(c, Next(c, s, a))
  {
    hide Inv, WriteStep, WakeStep, WorkerStep;
    match a
    case Write(p) => WriteKeeps(c, s, p);
    case Wake(ticket) => WakeKeeps(c, s, ticket);
    case Stop => OwnStepKeeps(c, s, a);
    case RaiseStopFlag => OwnStepKeeps(c, s, a);
    case Close => OwnStepKeeps(c, s, a);
    case _ => WorkerKeeps(c, s, a);
  }

  lemma {:induction false} RunsKeepInv(c: Config, actions: seq<Action>)
    ensures Inv(c, Run(c, actions))
  {
    if actions != [] {
      hide Inv, Next;
      RunsKeepInv(c, actions[..|actions| - 1]);
      StepKeeps(c, Run(c, actions[..|actions| - 1]), actions[|actions| - 1]);
    }
  }
}
