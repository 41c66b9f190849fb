/**
 What a push or a pop of the lock-free queue does when it runs alone from wherever the others
 left off: it finishes within a fixed number of steps, with the item where it belongs or the
 answer that is due.
 */
module QueueProgress {
  import opened Common
  import opened LockFreeQueue
  import opened QueueRuns

  /** `k` times the same step, with nobody else in between. */
  function Alone(s: State, a: Action, k: nat): (t: State)
    decreases k
  {
    if k == 0 then s else Alone(Observe(Act(s, a)), a, k - 1)
  }

  lemma {:induction false} AloneKeeps(s: State, a: Action, k: nat)
    requires Inv(s)
    ensures Inv(Alone(s, a, k))
    decreases k
  {
    if k > 0 {
      hide Inv, Act, Observe;
      StepKeeps(s, a);
      AloneKeeps(Observe(Act(s, a)), a, k - 1);
    }
  }

  // ---------------------------------------------------------------- a push alone

  function FromTail(m: Memory): (k: nat) {
    if NextOf(m, m.tail) == Null then 6 else 10
  }

  /** How many steps of its own the producer is away from resting. */
  function StepsLeft(m: Memory, q: Producer): (k: nat)
    ensures k <= 12
  {
    match q
    case Resting => 0
    case AddTotal => 1
    case SwingTail(_, _) => 2
    case Link(_, last) => if NextOf(m, last) == Null then 3 else 1 + FromTail(m)
    case HelpTail(_, last, next) => 1 + FromTail(ExchangeTail(m, last, next))
    case RecheckTail(_, last, found) =>
      if last != m.tail then 1 + FromTail(m)
      else if found == Null then (if NextOf(m, last) == Null then 4 else 2 + FromTail(m))
      else 2 + FromTail(ExchangeTail(m, last, found.id))
    case LoadNext(_, last) => if last != m.tail then 2 + FromTail(m) else if NextOf(m, last) == Null then 5 else 9
    case LoadTail(_) => FromTail(m)
    case AddOutstanding(_) => 1 + FromTail(m)
  }

  /** The linked nodes once this push is through. */
  function WillBeLinked(m: Memory, q: Producer): (r: seq<NodeId>) {
    m.linked + (if Holds(q) then [q.node] else [])
  }

  /** The tail lags by at most one node, so helping it once is enough. */
  lemma HelpedTail(m: Memory)
    requires Chain(m) && EndsInOrder(m)
    ensures NextOf(m, m.tail).At? ==> FromTail(ExchangeTail(m, m.tail, NextOf(m, m.tail).id)) == 6
  {
    TailIsLinked(m);
    NextFollows(m, m.tail);
    if NextOf(m, m.tail).At? {
      NextFollows(m, NextOf(m, m.tail).id);
    }
  }

  /** The push total once this push is through. */
  function TotalDue(s: State, q: Producer): (n: nat) {
    s.totalPushed + (if q == Resting then 0 else 1)
  }

  /** From its link on, a push that is alone finds the tail where it left it, and leaves it at its own node. */
  predicate TailIsOwn(m: Memory, q: Producer) {
    match q
    case SwingTail(n, last) => m.tail == last && m.linked != [] && m.linked[|m.linked| - 1] == n
    case AddTotal => m.linked != [] && m.linked[|m.linked| - 1] == m.tail
    case Resting => m.linked != [] && m.linked[|m.linked| - 1] == m.tail
    case _ => true
  }

  lemma TailStaysOwn(s: State, p: Pid)
    requires Inv(s) && p in s.producers && s.producers[p] != Resting && TailIsOwn(s.mem, s.producers[p])
    ensures var t := StepPush(s, p, s.producers[p]); TailIsOwn(t.mem, t.producers[p])
  {
    hide EndsInOrder, Chain, ItemsOk, CountOk, NoNodeLost, ConsumerOk, Follows, Behind, Rank;
    assert ProducerOk(s.mem, p, s.producers[p]);
    if s.producers[p].Link? {
      LastIsTail(s.mem, s.producers[p].last);
      BehindIsLinked(s.mem, s.producers[p].last);
      LinkStepsOn(s.mem, s.producers[p].node, s.producers[p].last);
    }
  }

  lemma PushStepsOn(s: State, p: Pid)
    requires Inv(s) && p in s.producers && s.producers[p] != Resting
    ensures var t := StepPush(s, p, s.producers[p]);
      && p in t.producers
      && StepsLeft(t.mem, t.producers[p]) == StepsLeft(s.mem, s.producers[p]) - 1
      && WillBeLinked(t.mem, t.producers[p]) == WillBeLinked(s.mem, s.producers[p])
      && TotalDue(t, t.producers[p]) == TotalDue(s, s.producers[p])
  {
    hide Inv, StepsLeft, WillBeLinked, TotalDue, StepPush;
    assert ProducerOk(s.mem, p, s.producers[p]) && Chain(s.mem) && EndsInOrder(s.mem) by { HoldsInInv(s, p); }
    match s.producers[p]
    case LoadTail(n) => PushLoadsOn(s, p);
    case LoadNext(n, last) => PushLoadsOn(s, p);
    case Link(n, last) => PushLinksOn(s, p);
    case _ => PushWritesOn(s, p);
  }

  lemma HoldsInInv(s: State, p: Pid)
    requires Inv(s) && p in s.producers
    ensures ProducerOk(s.mem, p, s.producers[p]) && Chain(s.mem) && EndsInOrder(s.mem)
  {
    hide Chain, EndsInOrder, ItemsOk, CountOk, NoNodeLost, ConsumerOk, ProducerOk;
  }

  lemma PushLoadsOn(s: State, p: Pid)
    requires p in s.producers && ProducerOk(s.mem, p, s.producers[p]) && Chain(s.mem) && EndsInOrder(s.mem)
    requires s.producers[p].LoadTail? || s.producers[p].LoadNext?
    ensures var t := StepPush(s, p, s.producers[p]);
      && p in t.producers
      && StepsLeft(t.mem, t.producers[p]) == StepsLeft(s.mem, s.producers[p]) - 1
      && WillBeLinked(t.mem, t.producers[p]) == WillBeLinked(s.mem, s.producers[p])
      && TotalDue(t, t.producers[p]) == TotalDue(s, s.producers[p])
  {
    hide Chain, EndsInOrder, Follows, ExchangeTail, NextOf, ProducerOk;
    HelpedTail(s.mem);
  }

  lemma PushWritesOn(s: State, p: Pid)
    requires p in s.producers && ProducerOk(s.mem, p, s.producers[p]) && s.producers[p] != Resting
    requires !s.producers[p].LoadTail? && !s.producers[p].LoadNext? && !s.producers[p].Link?
    ensures var t := StepPush(s, p, s.producers[p]);
      && p in t.producers
      && StepsLeft(t.mem, t.producers[p]) == StepsLeft(s.mem, s.producers[p]) - 1
      && WillBeLinked(t.mem, t.producers[p]) == WillBeLinked(s.mem, s.producers[p])
      && TotalDue(t, t.producers[p]) == TotalDue(s, s.producers[p])
  {
    hide Chain, EndsInOrder, Follows, LinkNode, ExchangeTail, NextOf, Behind, Rank;
    NodesStay(s.mem);
  }

  lemma PushLinksOn(s: State, p: Pid)
    requires p in s.producers && ProducerOk(s.mem, p, s.producers[p]) && s.producers[p].Link?
    ensures var t := StepPush(s, p, s.producers[p]);
      && p in t.producers
      && StepsLeft(t.mem, t.producers[p]) == StepsLeft(s.mem, s.producers[p]) - 1
      && WillBeLinked(t.mem, t.producers[p]) == WillBeLinked(s.mem, s.producers[p])
      && TotalDue(t, t.producers[p]) == TotalDue(s, s.producers[p])
  {
    hide LinkNode, ExchangeTail, NextOf, Behind, Rank;
    BehindIsLinked(s.mem, s.producers[p].last);
    LinkStepsOn(s.mem, s.producers[p].node, s.producers[p].last);
  }

  lemma NodesStay(m: Memory)
    ensures forall last, next :: ExchangeTail(m, last, next).linked == m.linked
  {
  }

  lemma LinkStepsOn(m: Memory, n: NodeId, last: NodeId)
    requires last < |m.heap| && n < |m.heap|
    ensures NextOf(m, last) == Null <==> m.heap[last].next == Null
    ensures LinkNode(m, n, last).linked == m.linked + [n]
  {
  }

  /**
   From any reachable state a push that runs alone is through after at most twelve steps; its item
   is then linked, behind everything linked before, and counted in the push total.
   */
  lemma {:induction false} PushFinishes(s: State, p: Pid) returns (k: nat)
    requires Inv(s) && p in s.producers
    ensures k <= 12
    ensures var t := Alone(s, StepProducer(p), k);
      && p in t.producers && t.producers[p] == Resting
      && t.mem.linked == s.mem.linked + (if Holds(s.producers[p]) then [s.producers[p].node] else [])
      && t.totalPushed == s.totalPushed + (if s.producers[p] == Resting then 0 else 1)
      && (Holds(s.producers[p]) ==> t.mem.tail == s.producers[p].node)
  {
    k := StepsLeft(s.mem, s.producers[p]);
    PushFinishesIn(s, p);
  }

  lemma {:induction false} PushFinishesIn(s: State, p: Pid)
    requires Inv(s) && p in s.producers
    ensures var t := Alone(s, StepProducer(p), StepsLeft(s.mem, s.producers[p]));
      && p in t.producers && t.producers[p] == Resting
      && t.mem.linked == WillBeLinked(s.mem, s.producers[p]) && t.totalPushed == TotalDue(s, s.producers[p])
      && (TailIsOwn(s.mem, s.producers[p]) ==> TailIsOwn(t.mem, Resting))
    decreases StepsLeft(s.mem, s.producers[p])
  {
    if s.producers[p] != Resting {
      hide Inv, StepPush, WillBeLinked, TotalDue, StepsLeft, QueueEmpty, TailIsOwn;
      PushStepsOn(s, p);
      if TailIsOwn(s.mem, s.producers[p]) {
        TailStaysOwn(s, p);
      }
      StepKeeps(s, StepProducer(p));
      PushFinishesIn(Observe(Act(s, StepProducer(p))), p);
      RestingIsThrough(s.mem);
    } else {
      hide Inv;
    }
  }

  lemma RestingIsThrough(m: Memory)
    ensures StepsLeft(m, Resting) == 0 && forall q :: StepsLeft(m, q) == 0 ==> q == Resting
  {
  }

  /** A push that starts on a resting thread and runs alone links its item last. */
  lemma PushAlone(s: State, p: Pid, item: Item) returns (k: nat)
    requires Inv(s) && (p in s.producers ==> s.producers[p] == Resting)
    ensures k <= 12
    ensures var t := Alone(Observe(Act(s, StartPush(p, item))), StepProducer(p), k);
      && Inv(t) && p in t.producers && t.producers[p] == Resting
      && LinkedItems(t.mem) == LinkedItems(s.mem) + [item] && NextOf(t.mem, t.mem.tail) == Null
      && t.totalPushed == s.totalPushed + 1
  {
    hide Inv, Act, Observe, StepsLeft;
    var u := Observe(Act(s, StartPush(p, item)));
    StepKeeps(s, StartPush(p, item));
    StartedPush(s, p, item);
    k := PushFinishes(u, p);
    AloneKeeps(u, StepProducer(p), k);
    AloneExtends(u, StepProducer(p), k);
    StepExtends(s, StartPush(p, item));
    LinkedLast(s, u, Alone(u, StepProducer(p), k), item);
    TailIsLast(Alone(u, StepProducer(p), k), |s.mem.heap|);
  }

  lemma StartedPush(s: State, p: Pid, item: Item)
    requires p in s.producers ==> s.producers[p] == Resting
    ensures var u := Observe(Act(s, StartPush(p, item)));
      && p in u.producers && u.producers[p] == AddOutstanding(|s.mem.heap|)
      && u.mem == Allocate(s.mem, item, p) && u.totalPushed == s.totalPushed
  {
    hide QueueEmpty;
  }

  lemma {:induction false} AloneExtends(s: State, a: Action, k: nat)
    ensures Extends(s, Alone(s, a, k))
    decreases k
  {
    if k > 0 {
      hide Act, Observe;
      var t := Observe(Act(s, a));
      StepExtends(s, a);
      AloneExtends(t, a, k - 1);
    }
  }

  lemma TailIsLast(s: State, id: NodeId)
    requires Inv(s) && s.mem.tail == id && s.mem.linked != [] && s.mem.linked[|s.mem.linked| - 1] == id
    ensures NextOf(s.mem, s.mem.tail) == Null
  {
    hide CountOk, ItemsOk, ConsumerOk, ProducersOk, NoNodeLost;
    assert Numbered(s.mem, |s.mem.linked| - 1);
    assert InPlace(s.mem, id);
  }

  lemma LinkedLast(s: State, u: State, t: State, item: Item)
    requires Inv(s) && Inv(t) && u.mem.linked == s.mem.linked && |u.mem.heap| == |s.mem.heap| + 1
    requires u.mem.heap[|s.mem.heap|].item == item && Extends(s, u) && Extends(u, t)
    requires t.mem.linked == s.mem.linked + [|s.mem.heap|]
    ensures LinkedItems(t.mem) == LinkedItems(s.mem) + [item]
  {
    hide CountOk, ItemsOk, ConsumerOk, ProducersOk, NoNodeLost;
    ItemsExtend(s, t);
    assert Numbered(t.mem, |s.mem.linked|);
  }

  // ---------------------------------------------------------------- a pop alone

  /** Only a pop that may wait spins, and only one that may not wait reports that nothing was there. */
  predicate AnswersAsAsked(s: State) {
    (s.consumer.ReportedEmpty? ==> !s.wait) && (s.consumer.Spin? ==> s.wait)
  }

  lemma {:induction false} AnswersAreAsAsked(dummy: Item, actions: seq<Action>)
    ensures AnswersAsAsked(Run(Initial(dummy), actions))
  {
    if actions != [] {
      hide QueueEmpty;
      AnswersAreAsAsked(dummy, actions[..|actions| - 1]);
      AnswersStep(Run(Initial(dummy), actions[..|actions| - 1]), actions[|actions| - 1]);
    }
  }

  lemma AnswersStep(s: State, a: Action)
    requires AnswersAsAsked(s)
    ensures AnswersAsAsked(Observe(Act(s, a)))
  {
    hide QueueEmpty, StepPush;
    if a.StepProducer? && a.p in s.producers {
      PushLeavesConsumer(s, a.p, s.producers[a.p]);
    }
  }

  lemma PushLeavesConsumer(s: State, p: Pid, q: Producer)
    ensures StepPush(s, p, q).consumer == s.consumer && StepPush(s, p, q).wait == s.wait
  {
  }

  function FromHead(m: Memory): (k: nat) {
    if m.head == At(m.tail) then (if NextOf(m, m.tail) == Null then 4 else 12) else 7
  }

  predicate Finished(m: Memory, c: Consumer) {
    c.Idle? || c.ReportedEmpty? || c == Spin(m.tail)
  }

  /** How many steps of its own the consumer is away from an answer, or from spinning in vain. */
  function PopStepsLeft(m: Memory, c: Consumer): (k: nat)
    ensures k <= 16
  {
    match c
    case Idle => 0
    case ReportedEmpty => 0
    case Spin(last) => if last == m.tail then 0 else 1 + FromHead(m)
    case GetTail => FromHead(m)
    case GetHead(last) => 1 + PopLoaded(m, last)
    case GetNext(last, _) => PopLoaded(m, last)
    case RecheckHead(last, first, found) =>
      if first != At(last) then 4
      else if found == Null then (if last == m.tail then 1 else 2 + FromHead(m))
      else 2 + FromHead(ExchangeTail(m, last, found.id))
    case Help(last, next) => 1 + FromHead(ExchangeTail(m, last, next))
    case MoveHead(_, _) => 3
    case SubtractOutstanding(_) => 2
    case TakeItem(_) => 1
  }

  function PopLoaded(m: Memory, last: NodeId): (k: nat) {
    if m.head != At(last) then 5
    else if NextOf(m, last) == Null then 2
    else 3 + FromHead(ExchangeTail(m, last, NextOf(m, last).id))
  }

  /** The node whose item a pop running alone will return, if it will return one. */
  function Finds(m: Memory, c: Consumer, wait: bool): (r: Option<NodeId>) {
    match c
    case Idle => None
    case ReportedEmpty => None
    case RecheckHead(last, _, found) => if found == Null && wait && last != m.tail then AfterHead(m) else Target(found)
    case MoveHead(_, found) => Target(found)
    case SubtractOutstanding(found) => Target(found)
    case TakeItem(found) => Target(found)
    case Spin(last) => if last == m.tail then None else AfterHead(m)
    case _ => AfterHead(m)
  }

  function Target(found: Ptr): (r: Option<NodeId>) {
    if found == Null then None else Some(found.id)
  }

  function AfterHead(m: Memory): (r: Option<NodeId>) {
    if m.head == Null then None else Target(NextOf(m, m.head.id))
  }

  /** One step nearer to the same answer. */
  predicate PopGoesOn(s: State, t: State) {
    && PopStepsLeft(t.mem, t.consumer) < PopStepsLeft(s.mem, s.consumer)
    && t.mem.linked == s.mem.linked && |t.mem.heap| == |s.mem.heap| && t.wait == s.wait && !t.consumer.Idle?
    && Finds(t.mem, t.consumer, t.wait) == Finds(s.mem, s.consumer, s.wait) && t.returned == s.returned
  }

  lemma FollowsIsNext(m: Memory, next: NodeId, last: NodeId)
    requires Chain(m) && Follows(m, next, last)
    ensures NextOf(m, last) == At(next)
  {
    assert InPlace(m, last) && InPlace(m, next);
  }

  lemma LastIsTail(m: Memory, last: NodeId)
    requires Chain(m) && EndsInOrder(m) && Behind(m, last)
    ensures NextOf(m, last) == Null ==> last == m.tail
  {
    NextFollows(m, last);
    assert InPlace(m, last) && InPlace(m, m.tail);
  }

  /** Where the head is the lagging tail, helping the tail is all that is missing. */
  lemma HelpedHead(m: Memory)
    requires Chain(m) && EndsInOrder(m) && m.head == At(m.tail) && NextOf(m, m.tail).At?
    ensures FromHead(ExchangeTail(m, m.tail, NextOf(m, m.tail).id)) == 7
  {
    TailIsLinked(m);
    NextFollows(m, m.tail);
  }

  lemma PopLoadsOn(s: State)
    requires Inv(s) && (s.consumer.GetTail? || s.consumer.GetHead? || s.consumer.GetNext?)
    ensures PopGoesOn(s, StepPop(s, false))
  {
    hide Chain, EndsInOrder, ItemsOk, CountOk, NoNodeLost, ProducersOk, Follows, Behind, HeadRank, Rank, NextOf;
    hide ExchangeTail, QueueEmpty;
    HeadIsBounded(s.mem);
    if s.consumer.GetNext? {
      LastIsTail(s.mem, s.consumer.last);
    } else if s.consumer.GetTail? && s.mem.head == At(s.mem.tail) && NextOf(s.mem, s.mem.tail).At? {
      HelpedHead(s.mem);
    }
  }

  lemma PopDecidesOn(s: State)
    requires Inv(s) && AnswersAsAsked(s) && (s.consumer.RecheckHead? || s.consumer.Help? || s.consumer.Spin?)
    requires !Finished(s.mem, s.consumer)
    ensures PopGoesOn(s, StepPop(s, false))
  {
    hide Chain, EndsInOrder, ItemsOk, CountOk, NoNodeLost, ProducersOk, Follows, Behind, HeadRank, Rank;
    hide QueueEmpty;
    HeadIsBounded(s.mem);
    if s.consumer.RecheckHead? && s.consumer.found.At? {
      FollowsIsNext(s.mem, s.consumer.found.id, s.consumer.first.id);
    }
  }

  lemma PopTakesOn(s: State)
    requires Inv(s) && (s.consumer.MoveHead? || s.consumer.SubtractOutstanding?)
    ensures PopGoesOn(s, StepPop(s, false))
  {
    hide Chain, EndsInOrder, ItemsOk, CountOk, NoNodeLost, ProducersOk, Follows, Behind, HeadRank, Rank, QueueEmpty;
  }

  /** The last step hands over the item found. */
  lemma PopHandsOver(s: State)
    requires Inv(s) && s.consumer.TakeItem?
    ensures var t := StepPop(s, false);
      && t.consumer.Idle? && t.mem.linked == s.mem.linked && t.wait == s.wait
      && Finds(s.mem, s.consumer, s.wait).Some? && Finds(s.mem, s.consumer, s.wait).value < |s.mem.heap|
      && t.returned == s.returned + [s.mem.heap[Finds(s.mem, s.consumer, s.wait).value].item]
  {
    hide EndsInOrder, CountOk, NoNodeLost, ProducersOk, Follows, Behind, QueueEmpty;
    HeadIsBounded(s.mem);
    ItemsAfterTake(s.mem, s.returned);
  }

  lemma PopStepsOn(s: State)
    requires Inv(s) && AnswersAsAsked(s) && !Finished(s.mem, s.consumer)
    ensures s.consumer.TakeItem? || PopGoesOn(s, StepPop(s, false))
  {
    hide Inv, StepPop, PopGoesOn;
    match s.consumer
    case GetTail => PopLoadsOn(s);
    case GetHead(_) => PopLoadsOn(s);
    case GetNext(_, _) => PopLoadsOn(s);
    case MoveHead(_, _) => PopTakesOn(s);
    case SubtractOutstanding(_) => PopTakesOn(s);
    case TakeItem(_) =>
    case _ => PopDecidesOn(s);
  }

  /** The pop has its answer: the item that was to be found, or that there is none, or it waits for one. */
  predicate Answered(s: State, t: State, finds: Option<NodeId>) {
    match finds
    case Some(id) => t.consumer.Idle? && id < |s.mem.heap| && t.returned == s.returned + [s.mem.heap[id].item]
    case None =>
      t.returned == s.returned && (if s.wait then t.consumer == Spin(t.mem.tail) else t.consumer.ReportedEmpty?)
  }

  /**
   From any reachable state a pop that runs alone has, after at most sixteen steps, returned the
   item after the head, or reported that there is none, or, if asked to wait, it spins on the tail.
   */
  lemma {:induction false} PopFinishes(s: State) returns (k: nat)
    requires Inv(s) && AnswersAsAsked(s) && !s.consumer.Idle?
    ensures k <= PopStepsLeft(s.mem, s.consumer) <= 16
    ensures var t := Alone(s, StepConsumer(false), k);
      Inv(t) && t.mem.linked == s.mem.linked && Answered(s, t, Finds(s.mem, s.consumer, s.wait))
    decreases PopStepsLeft(s.mem, s.consumer)
  {
    hide Inv, Act, Finds, PopStepsLeft, QueueEmpty, AnswersAsAsked;
    var a := StepConsumer(false);
    var t := Observe(Act(s, a));
    if Finished(s.mem, s.consumer) {
      k := 0;
      FinishedIsAnswered(s);
    } else {
      PopStepsOn(s);
      StepKeeps(s, a);
      StepExtends(s, a);
      PopStep(s);
      StepsAreFew(s.mem, s.consumer);
      if s.consumer.TakeItem? {
        PopHandsOver(s);
        k := 1;
      } else {
        AnswersStep(s, a);
        k := PopFinishes(t);
        k := k + 1;
        SameAnswer(s, t, Alone(t, a, k - 1), Finds(s.mem, s.consumer, s.wait));
      }
    }
  }

  lemma PopStep(s: State)
    ensures var t := Observe(Act(s, StepConsumer(false)));
      var u := StepPop(s, false);
      t.mem == u.mem && t.consumer == u.consumer && t.returned == u.returned && t.wait == u.wait
  {
    hide StepPop, QueueEmpty;
  }

  lemma FinishedIsAnswered(s: State)
    requires AnswersAsAsked(s) && Finished(s.mem, s.consumer) && !s.consumer.Idle?
    ensures Answered(s, s, Finds(s.mem, s.consumer, s.wait))
  {
  }

  lemma StepsAreFew(m: Memory, c: Consumer)
    ensures c.TakeItem? ==> PopStepsLeft(m, c) == 1
  {
  }

  lemma SameAnswer(s: State, t: State, u: State, finds: Option<NodeId>)
    requires Answered(t, u, finds) && t.returned == s.returned && t.wait == s.wait && Extends(s, t)
    requires |t.mem.heap| == |s.mem.heap|
    ensures Answered(s, u, finds)
  {
  }

  /** What is found from the head of a reachable queue. */
  ghost function Stored(s: State): (r: seq<Item>)
    requires Inv(s)
  {
    ItemsAddUp(s);
    Walk(s.mem, s.mem.head.id)
  }

  /**
   A pop that starts and runs alone takes the first stored item; if there is none it says so, or
   waits if it was asked to. Nothing else changes.
   */
  lemma PopAlone(s: State, wait: bool) returns (k: nat)
    requires Inv(s) && (s.consumer.Idle? || s.consumer.ReportedEmpty?)
    ensures k <= 16
    ensures var t := Alone(Observe(Act(s, StartPop(wait))), StepConsumer(false), k);
      && Inv(t) && t.mem.linked == s.mem.linked
      && (Stored(s) != [] ==>
            t.consumer.Idle? && t.returned == s.returned + [Stored(s)[0]] && Stored(t) == Stored(s)[1..])
      && (Stored(s) == [] ==>
            && t.returned == s.returned && Stored(t) == []
            && (if wait then t.consumer == Spin(t.mem.tail) else t.consumer.ReportedEmpty?))
  {
    hide Inv, Act, StepPop;
    var u := Observe(Act(s, StartPop(wait)));
    StartedPop(s, wait);
    StepKeeps(s, StartPop(wait));
    k := PopFinishes(u);
    var t := Alone(u, StepConsumer(false), k);
    StepExtends(s, StartPop(wait));
    AloneExtends(u, StepConsumer(false), k);
    FirstStored(s, wait);
    ItemsLeft(s, t);
    if Stored(s) != [] {
      RestAfterFirst(s.returned, Stored(s)[0], Stored(t), Stored(s));
    }
  }

  lemma StartedPop(s: State, wait: bool)
    requires s.consumer.Idle? || s.consumer.ReportedEmpty?
    ensures var u := Observe(Act(s, StartPop(wait)));
      u.consumer == GetTail && u.mem == s.mem && u.wait == wait && u.returned == s.returned
  {
    hide QueueEmpty;
  }

  lemma FirstStored(s: State, wait: bool)
    requires Inv(s)
    ensures var finds := Finds(s.mem, GetTail, wait);
      && (finds.None? <==> Stored(s) == [])
      && (finds.Some? ==> finds.value < |s.mem.heap| && Stored(s)[0] == s.mem.heap[finds.value].item)
  {
    ItemsAddUp(s);
    NextFollows(s.mem, s.mem.head.id);
  }

  lemma ItemsLeft(s: State, t: State)
    requires Inv(s) && Inv(t) && Extends(s, t) && t.mem.linked == s.mem.linked
    requires s.consumer.Idle? || s.consumer.ReportedEmpty?
    requires InHand(t.consumer) == 0
    ensures s.returned + Stored(s) == t.returned + Stored(t)
  {
    hide Walk, ConsumerOk, ProducersOk, NoNodeLost, CountOk;
    ItemsAddUp(s);
    ItemsAddUp(t);
    ItemsExtend(s, t);
    assert LinkedItems(s.mem) == LinkedItems(t.mem) by {
      assert |LinkedItems(s.mem)| == |LinkedItems(t.mem)|;
    }
    assert s.returned + Held(s) == s.returned && t.returned + Held(t) == t.returned;
  }

  lemma RestAfterFirst(a: seq<Item>, x: Item, b: seq<Item>, c: seq<Item>)
    requires a + [x] + b == a + c && c != [] && c[0] == x
    ensures b == c[1..]
  {
    assert (a + [x] + b)[|a| + 1..] == b && (a + c)[|a| + 1..] == c[1..];
  }
}
