/**
 What the lock-free queue does in every run, and what the wait for emptiness may conclude.
 */
module QueueRuns {
  import opened LockFreeQueue

  lemma {:induction false} RunsKeepInv(dummy: Item, actions: seq<Action>)
    ensures Inv(Run(Initial(dummy), actions))
  {
    if actions == [] {
      var m := Initial(dummy).mem;
      assert Numbered(m, 0) && InPlace(m, 0);
      assert CountedPushes(map[]) == {} && FinishingPushes(map[]) == {};
    } else {
      hide Inv, Act, Observe;
      RunsKeepInv(dummy, actions[..|actions| - 1]);
      StepKeeps(Run(Initial(dummy), actions[..|actions| - 1]), actions[|actions| - 1]);
    }
  }

  // ---------------------------------------------------------------- what every run does

  /** The items in the order in which their nodes were linked; the dummy carries none. */
  ghost function LinkedItems(m: Memory): (r: seq<Item>)
    requires Chain(m)
  {
    seq(|m.linked| - 1, i requires 0 <= i < |m.linked| - 1 => (assert Numbered(m, i + 1); m.heap[m.linked[i + 1]].item))
  }

  /** What is found by following next pointers from node `id`. */
  ghost function Walk(m: Memory, id: NodeId): (r: seq<Item>)
    requires Chain(m) && IsLinked(m, id)
    decreases |m.linked| - m.heap[id].rank
  {
    NextFollows(m, id);
    match NextOf(m, id)
    case Null => []
    case At(next) => [m.heap[next].item] + Walk(m, next)
  }

  lemma {:induction false} WalkIsRest(m: Memory, id: NodeId)
    requires Chain(m) && IsLinked(m, id)
    ensures Walk(m, id) == LinkedItems(m)[m.heap[id].rank..]
    decreases |m.linked| - m.heap[id].rank
  {
    NextFollows(m, id);
    if NextOf(m, id).At? {
      var next := NextOf(m, id).id;
      assert InPlace(m, next);
      WalkIsRest(m, next);
    }
  }

  /** The item removed from the list but not handed to the caller yet. */
  ghost function Held(s: State): (r: seq<Item>) {
    if InHand(s.consumer) == 1 && s.mem.head.At? && s.mem.head.id < |s.mem.heap|
    then [s.mem.heap[s.mem.head.id].item]
    else []
  }

  /**
   In every run: no null or moved-from node is used and the counter never goes below zero;
   the items returned, then the one in hand, then those found from the head, are exactly the
   items linked so far, in link order; and the ends stay in order.
   */
  lemma {:induction false} EveryRunIsFifo(dummy: Item, actions: seq<Action>)
    ensures var s := Run(Initial(dummy), actions);
      && !s.fault && s.outstanding >= 0
      && Chain(s.mem) && s.mem.head.At? && IsLinked(s.mem, s.mem.head.id) && IsLinked(s.mem, s.mem.tail)
      && s.returned + Held(s) + Walk(s.mem, s.mem.head.id) == LinkedItems(s.mem)
      && Rank(s.mem, s.mem.head.id) <= Rank(s.mem, s.mem.tail)
      && |s.mem.linked| - 2 <= Rank(s.mem, s.mem.tail) <= |s.mem.linked| - 1
  {
    hide Run, CountedPushes, FinishingPushes, NoNodeLost, ProducersOk, ConsumerOk;
    var s := Run(Initial(dummy), actions);
    RunsKeepInv(dummy, actions);
    HeadIsBounded(s.mem);
    TailIsLinked(s.mem);
    ItemsAddUp(s);
  }

  lemma ItemsAddUp(s: State)
    requires Inv(s)
    ensures Chain(s.mem) && s.mem.head.At? && IsLinked(s.mem, s.mem.head.id)
    ensures s.returned + Held(s) + Walk(s.mem, s.mem.head.id) == LinkedItems(s.mem)
  {
    hide CountedPushes, FinishingPushes, NoNodeLost, ProducersOk, ConsumerOk;
    var m := s.mem;
    HeadIsBounded(m);
    WalkIsRest(m, m.head.id);
    HeldAndReturned(s);
    var n := HeadRank(m);
    assert LinkedItems(m)[..n] + LinkedItems(m)[n..] == LinkedItems(m);
  }

  lemma HeldAndReturned(s: State)
    requires Chain(s.mem) && EndsInOrder(s.mem) && ItemsOk(s.mem, InHand(s.consumer), s.returned)
    ensures 0 <= HeadRank(s.mem) < |s.mem.linked|
    ensures s.returned + Held(s) == LinkedItems(s.mem)[..HeadRank(s.mem)]
  {
    var m := s.mem;
    HeadIsBounded(m);
    forall i | 0 <= i < |m.linked| ensures m.linked[i] < |m.heap| {
      assert Numbered(m, i);
    }
  }

  /** A push that was started is linked once, or still in the hands of the producer that started it. */
  lemma {:induction false} NoPushIsLostOrDoubled(dummy: Item, actions: seq<Action>, id: NodeId)
    requires id < |Run(Initial(dummy), actions).mem.heap|
    ensures var s := Run(Initial(dummy), actions);
      var linked := s.mem.linked;
      if id in linked
      then forall i, j :: 0 <= i < |linked| && 0 <= j < |linked| && linked[i] == id == linked[j] ==> i == j
      else HeldBy(s.mem.heap[id].owner, id, s.producers)
  {
    hide Run, CountedPushes, FinishingPushes, ProducersOk, ConsumerOk, ItemsOk, EndsInOrder, HeldBy;
    var s := Run(Initial(dummy), actions);
    RunsKeepInv(dummy, actions);
    assert InPlace(s.mem, id);
    forall i | 0 <= i < |s.mem.linked| && s.mem.linked[i] == id ensures i == s.mem.heap[id].rank {
      assert Numbered(s.mem, i);
    }
  }

  /** A pop that gave up saw an instant, since it began, at which nothing was linked behind the head. */
  lemma {:induction false} EmptyIsReportedTruly(dummy: Item, actions: seq<Action>)
    ensures var s := Run(Initial(dummy), actions); s.consumer.ReportedEmpty? ==> s.sawEmpty
  {
    hide Run, CountedPushes, FinishingPushes, ProducersOk, NoNodeLost, ItemsOk, EndsInOrder, Chain;
    RunsKeepInv(dummy, actions);
  }

  /** The drain test: the counter is zero exactly when nothing is linked, being linked or being taken off the count. */
  lemma {:induction false} OutstandingIsZeroIff(dummy: Item, actions: seq<Action>)
    ensures var s := Run(Initial(dummy), actions);
      s.outstanding == 0 <==>
        && QueueEmpty(s.mem) && !s.consumer.SubtractOutstanding?
        && forall p :: p in s.producers ==> !Counted(s.producers[p])
  {
    hide Run, ProducersOk, NoNodeLost, ItemsOk, ConsumerOk;
    var s := Run(Initial(dummy), actions);
    RunsKeepInv(dummy, actions);
    HeadIsBounded(s.mem);
    NextFollows(s.mem, s.mem.head.id);
    var counted := CountedPushes(s.producers);
    assert |counted| == 0 <==> counted == {};
    assert forall p :: p in counted <==> p in s.producers && Counted(s.producers[p]);
  }

  /** Nothing linked is ever unlinked, replaced or reordered, and the push total only grows. */
  ghost predicate Extends(s: State, t: State) {
    && |s.mem.heap| <= |t.mem.heap| && s.mem.linked <= t.mem.linked && s.totalPushed <= t.totalPushed
    && (forall id :: 0 <= id < |s.mem.heap| ==> t.mem.heap[id].item == s.mem.heap[id].item)
  }

  lemma StepExtends(s: State, a: Action)
    ensures Extends(s, Observe(Act(s, a)))
  {
    hide QueueEmpty;
    match a
    case StartPush(p, item) =>
    case StepProducer(p) => if p in s.producers { PushExtends(s, p, s.producers[p]); }
    case StartPop(wait) =>
    case StepConsumer(spurious) => PopExtends(s, spurious);
  }

  lemma PushExtends(s: State, p: Pid, q: Producer)
    ensures Extends(s, StepPush(s, p, q))
  {
  }

  lemma PopExtends(s: State, spurious: bool)
    ensures Extends(s, StepPop(s, spurious))
  {
  }

  lemma {:induction false} RunExtends(s: State, actions: seq<Action>)
    requires Inv(s)
    ensures Inv(Run(s, actions)) && Extends(s, Run(s, actions))
  {
    if actions != [] {
      hide Inv, Act, Observe;
      var t := Run(s, actions[..|actions| - 1]);
      RunExtends(s, actions[..|actions| - 1]);
      StepKeeps(t, actions[|actions| - 1]);
      StepExtends(t, actions[|actions| - 1]);
    }
  }

  lemma ItemsExtend(s: State, t: State)
    requires Chain(s.mem) && Chain(t.mem) && Extends(s, t)
    ensures LinkedItems(s.mem) <= LinkedItems(t.mem)
  {
    forall i | 0 <= i < |s.mem.linked| ensures s.mem.linked[i] < |s.mem.heap| {
      assert Numbered(s.mem, i);
    }
  }

  /**
   What the wait for emptiness reports: it reads the counter as zero in one state and the push
   total in a later one. In the first, everything linked has been removed; the total read counts
   exactly that, plus the items linked since, but for pushes about to be added to it.
   */
  lemma {:induction false} DrainedTotalIsReturned(dummy: Item, before: seq<Action>, between: seq<Action>)
    requires Run(Initial(dummy), before).outstanding == 0
    ensures var s := Run(Initial(dummy), before);
      var t := Run(s, between);
      && Chain(s.mem) && Chain(t.mem)
      && s.returned + Held(s) == LinkedItems(s.mem) && LinkedItems(s.mem) <= LinkedItems(t.mem)
      && t.totalPushed + |FinishingPushes(t.producers)| ==
           |s.returned| + |Held(s)| + |LinkedItems(t.mem)[|s.returned| + |Held(s)|..]|
      && s.totalPushed <= t.totalPushed
  {
    hide Run, ProducersOk, NoNodeLost, ConsumerOk, CountedPushes, FinishingPushes, Numbered, InPlace;
    var s := Run(Initial(dummy), before);
    RunsKeepInv(dummy, before);
    HeldAndReturned(s);
    assert HeadRank(s.mem) == |s.mem.linked| - 1;
    assert LinkedItems(s.mem)[..HeadRank(s.mem)] == LinkedItems(s.mem);
    RunExtends(s, between);
    ItemsExtend(s, Run(s, between));
  }
}
