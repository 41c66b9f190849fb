/**
 The lock-free queue as interleaved atomic steps: any number of producers, one consumer,
 sequentially consistent memory, nodes that are never freed, and no shutdown.

 Every atomic load, store, compare-exchange and counter update of a push or a pop is one step.
 The node fields `rank`, `owner` and `moved`, the list `linked` and the state fields `returned`,
 `sawEmpty` and `fault` are history: they record what happened and decide no branch of the code.
 */
module LockFreeQueue {
  import opened Common

  type Item(!new, ==)
  type NodeId = nat
  type Pid = nat

  datatype Ptr = Null | At(id: NodeId)

  /** `rank` is the node's place in link order, -1 until it is linked. */
  datatype Node = Node(item: Item, moved: bool, next: Ptr, rank: int, owner: Pid)

  datatype Memory = Memory(heap: seq<Node>, head: Ptr, tail: NodeId, linked: seq<NodeId>)

  datatype Producer =
    | Resting
    | AddOutstanding(node: NodeId)
    | LoadTail(node: NodeId)
    | LoadNext(node: NodeId, last: NodeId)
    | RecheckTail(node: NodeId, last: NodeId, found: Ptr)
    | Link(node: NodeId, last: NodeId)
    | HelpTail(node: NodeId, last: NodeId, next: NodeId)
    | SwingTail(node: NodeId, last: NodeId)
    | AddTotal

  datatype Consumer =
    | Idle
    | GetTail
    | GetHead(last: NodeId)
    | GetNext(last: NodeId, first: Ptr)
    | RecheckHead(last: NodeId, first: Ptr, found: Ptr)
    | Spin(last: NodeId)
    | Help(last: NodeId, next: NodeId)
    | MoveHead(first: Ptr, found: Ptr)
    | SubtractOutstanding(found: Ptr)
    | TakeItem(found: Ptr)
    | ReportedEmpty

  datatype State = State(
    mem: Memory, outstanding: int, totalPushed: nat, producers: map<Pid, Producer>,
    consumer: Consumer, wait: bool, returned: seq<Item>, sawEmpty: bool, fault: bool)

  datatype Action =
    | StartPush(p: Pid, item: Item)
    | StepProducer(p: Pid)
    | StartPop(wait: bool)
    | StepConsumer(spurious: bool)

  function Initial(dummy: Item): (s: State) {
    State(Memory([Node(dummy, true, Null, 0, 0)], At(0), 0, [0]), 0, 0, map[], Idle, false, [], false, false)
  }

  // ---------------------------------------------------------------- the steps

  function NextOf(m: Memory, id: NodeId): (r: Ptr) {
    if id < |m.heap| then m.heap[id].next else Null
  }

  function Allocate(m: Memory, item: Item, p: Pid): (r: Memory) {
    m.(heap := m.heap + [Node(item, false, Null, -1, p)])
  }

  /** The compare-exchange of `last`'s next pointer, when it succeeds. */
  function LinkNode(m: Memory, n: NodeId, last: NodeId): (r: Memory)
    requires n < |m.heap| && last < |m.heap|
  {
    var heap := m.heap[last := m.heap[last].(next := At(n))];
    m.(heap := heap[n := heap[n].(rank := |m.linked|)], linked := m.linked + [n])
  }

  function ExchangeTail(m: Memory, expected: NodeId, id: NodeId): (r: Memory) {
    if m.tail == expected then m.(tail := id) else m
  }

  function StepPush(s: State, p: Pid, q: Producer): (r: State) {
    match q
    case Resting => s
    case AddOutstanding(n) => s.(outstanding := s.outstanding + 1, producers := s.producers[p := LoadTail(n)])
    case LoadTail(n) => s.(producers := s.producers[p := LoadNext(n, s.mem.tail)])
    case LoadNext(n, last) => s.(producers := s.producers[p := RecheckTail(n, last, NextOf(s.mem, last))])
    case RecheckTail(n, last, found) =>
      var next :=
        if last != s.mem.tail then LoadTail(n)
        else if found == Null then Link(n, last)
        else HelpTail(n, last, found.id);
      s.(producers := s.producers[p := next])
    case Link(n, last) =>
      if last < |s.mem.heap| && n < |s.mem.heap| && s.mem.heap[last].next == Null then
        s.(mem := LinkNode(s.mem, n, last), producers := s.producers[p := SwingTail(n, last)])
      else s.(producers := s.producers[p := LoadTail(n)])
    case HelpTail(n, last, next) =>
      s.(mem := ExchangeTail(s.mem, last, next), producers := s.producers[p := LoadTail(n)])
    case SwingTail(n, last) =>
      s.(mem := ExchangeTail(s.mem, last, n), producers := s.producers[p := AddTotal])
    case AddTotal => s.(totalPushed := s.totalPushed + 1, producers := s.producers[p := Resting])
  }

  function StepPop(s: State, spurious: bool): (r: State) {
    match s.consumer
    case Idle => s
    case ReportedEmpty => s
    case GetTail => s.(consumer := GetHead(s.mem.tail))
    case GetHead(last) => s.(consumer := GetNext(last, s.mem.head))
    case GetNext(last, first) =>
      if first == Null then s.(fault := true)
      else s.(consumer := RecheckHead(last, first, NextOf(s.mem, first.id)))
    case RecheckHead(last, first, found) =>
      if first != s.mem.head then s.(consumer := GetTail)
      else if first == At(last) then
        if found == Null then s.(consumer := if s.wait then Spin(last) else ReportedEmpty)
        else s.(consumer := Help(last, found.id))
      else s.(consumer := MoveHead(first, found))
    case Spin(last) => if last == s.mem.tail then s else s.(consumer := GetTail)
    case Help(last, next) => s.(mem := ExchangeTail(s.mem, last, next), consumer := GetTail)
    case MoveHead(first, found) =>
      if s.mem.head == first && !spurious
      then s.(mem := s.mem.(head := found), consumer := SubtractOutstanding(found))
      else s.(consumer := GetTail)
    case SubtractOutstanding(found) =>
      s.(outstanding := s.outstanding - 1, fault := s.fault || s.outstanding <= 0, consumer := TakeItem(found))
    case TakeItem(found) =>
      if found == Null || found.id >= |s.mem.heap| || s.mem.heap[found.id].moved then s.(fault := true)
      else s.(mem := Take(s.mem, found.id), returned := s.returned + [s.mem.heap[found.id].item], consumer := Idle)
  }

  function Take(m: Memory, id: NodeId): (r: Memory)
    requires id < |m.heap|
  {
    m.(heap := m.heap[id := m.heap[id].(moved := true)])
  }

  /** Nothing is linked after the node that `head` points at. */
  predicate QueueEmpty(m: Memory) {
    m.head == Null || NextOf(m, m.head.id) == Null
  }

  function Act(s: State, a: Action): (r: State) {
    match a
    case StartPush(p, item) =>
      if p in s.producers && s.producers[p] != Resting then s
      else s.(mem := Allocate(s.mem, item, p), producers := s.producers[p := AddOutstanding(|s.mem.heap|)])
    case StepProducer(p) => if p in s.producers then StepPush(s, p, s.producers[p]) else s
    case StartPop(wait) =>
      if s.consumer.Idle? || s.consumer.ReportedEmpty?
      then s.(consumer := GetTail, wait := wait, sawEmpty := false)
      else s
    case StepConsumer(spurious) => StepPop(s, spurious)
  }

  /** The observer notes whether the queue is empty at this instant. */
  function Observe(s: State): (r: State) {
    s.(sawEmpty := s.sawEmpty || QueueEmpty(s.mem))
  }

  function Run(s: State, actions: seq<Action>): (r: State) {
    if actions == [] then s else Observe(Act(Run(s, actions[..|actions| - 1]), actions[|actions| - 1]))
  }

  // ---------------------------------------------------------------- the invariant

  predicate IsLinked(m: Memory, id: NodeId) {
    id < |m.heap| && 0 <= m.heap[id].rank < |m.linked|
  }

  function Rank(m: Memory, id: NodeId): (r: int) {
    if id < |m.heap| then m.heap[id].rank else -1
  }

  function HeadRank(m: Memory): (r: int) {
    if m.head.At? then Rank(m, m.head.id) else -1
  }

  /** The node's rank is its place in `linked`, and its next pointer is the node linked after it. */
  predicate InPlace(m: Memory, id: NodeId) {
    && id < |m.heap|
    && -1 <= m.heap[id].rank < |m.linked|
    && (m.heap[id].rank >= 0 ==> m.linked[m.heap[id].rank] == id)
    && m.heap[id].next == (if 0 <= m.heap[id].rank < |m.linked| - 1 then At(m.linked[m.heap[id].rank + 1]) else Null)
  }

  predicate Numbered(m: Memory, i: nat) {
    i < |m.linked| && m.linked[i] < |m.heap| && m.heap[m.linked[i]].rank == i
  }

  /** Linked nodes form one chain in link order, and `rank` numbers it. */
  predicate Chain(m: Memory) {
    && |m.linked| > 0
    && (forall i :: 0 <= i < |m.linked| ==> Numbered(m, i))
    && (forall id :: 0 <= id < |m.heap| ==> InPlace(m, id))
  }

  /** The head never passes the tail, and the tail lags by at most one node. */
  predicate EndsInOrder(m: Memory) {
    0 <= HeadRank(m) <= Rank(m, m.tail) && |m.linked| - 2 <= Rank(m, m.tail)
  }

  /** The producer holds a node that is not linked yet. */
  predicate Holds(q: Producer) {
    !q.Resting? && !q.AddTotal? && !q.SwingTail?
  }

  /** The push is counted in `outstanding` but not linked. */
  predicate Counted(q: Producer) {
    Holds(q) && !q.AddOutstanding?
  }

  predicate Behind(m: Memory, last: NodeId) {
    IsLinked(m, last) && Rank(m, last) <= Rank(m, m.tail)
  }

  predicate Follows(m: Memory, next: NodeId, last: NodeId) {
    IsLinked(m, last) && IsLinked(m, next) && Rank(m, next) == Rank(m, last) + 1
  }

  predicate ProducerOk(m: Memory, p: Pid, q: Producer) {
    && (Holds(q) ==> q.node < |m.heap| && m.heap[q.node].rank == -1 && m.heap[q.node].owner == p)
    && (match q
        case LoadNext(n, last) => Behind(m, last)
        case RecheckTail(n, last, found) => Behind(m, last) && (found.At? ==> Follows(m, found.id, last))
        case Link(n, last) => Behind(m, last)
        case HelpTail(n, last, next) => Behind(m, last) && Follows(m, next, last)
        case SwingTail(n, last) => Follows(m, n, last) && Behind(m, last)
        case _ => true)
  }

  predicate ProducersOk(m: Memory, producers: map<Pid, Producer>) {
    forall p :: p in producers ==> ProducerOk(m, p, producers[p])
  }

  /** No started push is forgotten: an unlinked node is in the hands of the producer that made it. */
  predicate NoNodeLost(m: Memory, producers: map<Pid, Producer>) {
    forall id :: 0 <= id < |m.heap| && m.heap[id].rank == -1 ==> HeldBy(m.heap[id].owner, id, producers)
  }

  predicate HeldBy(p: Pid, id: NodeId, producers: map<Pid, Producer>) {
    p in producers && Holds(producers[p]) && producers[p].node == id
  }

  predicate ConsumerOk(m: Memory, c: Consumer, sawEmpty: bool) {
    match c
    case GetHead(last) => Behind(m, last) && HeadRank(m) <= Rank(m, last)
    case GetNext(last, first) => Behind(m, last) && HeadRank(m) <= Rank(m, last) && first == m.head
    case RecheckHead(last, first, found) =>
      && Behind(m, last) && HeadRank(m) <= Rank(m, last) && first == m.head && first.At?
      && (found == Null ==> first == At(last) && sawEmpty)
      && (found.At? ==> Follows(m, found.id, first.id))
    case Help(last, next) => Behind(m, last) && Follows(m, next, last)
    case MoveHead(first, found) =>
      first == m.head && first.At? && found.At? && Follows(m, found.id, first.id) && Behind(m, found.id)
    case SubtractOutstanding(found) => found == m.head && HeadRank(m) >= 1
    case TakeItem(found) => found == m.head && HeadRank(m) >= 1
    case ReportedEmpty => sawEmpty
    case _ => true
  }

  function InHand(c: Consumer): (r: nat) {
    if c.SubtractOutstanding? || c.TakeItem? then 1 else 0
  }

  /** What has been returned is what was linked first, and nothing still to come was moved from. */
  predicate ItemsOk(m: Memory, inHand: nat, returned: seq<Item>) {
    && |returned| == HeadRank(m) - inHand
    && (forall i :: 0 < i <= |returned| && i < |m.linked| && m.linked[i] < |m.heap| ==>
          m.heap[m.linked[i]].item == returned[i - 1])
    && (forall i :: |returned| < i < |m.linked| && m.linked[i] < |m.heap| ==> !m.heap[m.linked[i]].moved)
    && (forall id :: 0 <= id < |m.heap| && m.heap[id].rank == -1 ==> !m.heap[id].moved)
  }

  /** The push is linked but not in the push total yet. */
  predicate Finishing(q: Producer) {
    q.SwingTail? || q.AddTotal?
  }

  ghost function CountedPushes(producers: map<Pid, Producer>): (r: set<Pid>) {
    Those(producers, Counted)
  }

  ghost function FinishingPushes(producers: map<Pid, Producer>): (r: set<Pid>) {
    Those(producers, Finishing)
  }

  /** Linked items not yet removed, counted pushes, and a removal that is not subtracted yet; and the push total. */
  ghost predicate CountOk(s: State) {
    && s.outstanding == |s.mem.linked| - 1 - HeadRank(s.mem) + |CountedPushes(s.producers)|
         + (if s.consumer.SubtractOutstanding? then 1 else 0)
    && s.totalPushed + |FinishingPushes(s.producers)| == |s.mem.linked| - 1
  }

  ghost predicate Inv(s: State) {
    && !s.fault && Chain(s.mem) && EndsInOrder(s.mem)
    && ProducersOk(s.mem, s.producers) && NoNodeLost(s.mem, s.producers)
    && ConsumerOk(s.mem, s.consumer, s.sawEmpty)
    && ItemsOk(s.mem, InHand(s.consumer), s.returned) && CountOk(s)
  }

  // ---------------------------------------------------------------- memory only grows

  /** What a local pointer may rely on while others take steps. */
  predicate Grows(m: Memory, w: Memory) {
    && |m.heap| <= |w.heap| && |m.linked| <= |w.linked| && Rank(m, m.tail) <= Rank(w, w.tail)
    && (forall id :: 0 <= id < |m.heap| ==>
          && w.heap[id].owner == m.heap[id].owner
          && (m.heap[id].rank != -1 ==> w.heap[id].rank == m.heap[id].rank))
  }

  lemma BehindStays(m: Memory, w: Memory, last: NodeId)
    requires Grows(m, w) && Behind(m, last)
    ensures Behind(w, last)
  {
  }

  lemma FollowsStays(m: Memory, w: Memory, next: NodeId, last: NodeId)
    requires Grows(m, w) && Follows(m, next, last)
    ensures Follows(w, next, last)
  {
  }

  lemma ProducerStays(m: Memory, w: Memory, p: Pid, q: Producer)
    requires Grows(m, w) && ProducerOk(m, p, q)
    requires Holds(q) ==> w.heap[q.node].rank == -1
    ensures ProducerOk(w, p, q)
  {
    hide Behind, Follows;
    match q
    case LoadNext(n, last) => BehindStays(m, w, last);
    case RecheckTail(n, last, found) =>
      BehindStays(m, w, last);
      if found.At? { FollowsStays(m, w, found.id, last); }
    case Link(n, last) => BehindStays(m, w, last);
    case HelpTail(n, last, next) => BehindStays(m, w, last); FollowsStays(m, w, next, last);
    case SwingTail(n, last) => BehindStays(m, w, last); FollowsStays(m, w, n, last);
    case _ =>
  }

  /** Everybody else still stands where they stood, if only `p`'s node can have been linked. */
  lemma OthersStay(m: Memory, w: Memory, producers: map<Pid, Producer>, p: Pid, q: Producer)
    requires Grows(m, w) && ProducersOk(m, producers) && ProducerOk(w, p, q)
    requires forall id :: 0 <= id < |m.heap| && m.heap[id].owner != p ==> w.heap[id].rank == m.heap[id].rank
    ensures ProducersOk(w, producers[p := q])
  {
    hide Grows;
    forall o | o in producers && o != p
      ensures ProducerOk(w, o, producers[o])
    {
      hide Behind, Follows;
      ProducerStays(m, w, o, producers[o]);
    }
  }

  lemma LinkKeeps(m: Memory, n: NodeId, last: NodeId)
    requires Chain(m) && EndsInOrder(m) && n < |m.heap| && m.heap[n].rank == -1
    requires Behind(m, last) && m.heap[last].next == Null
    ensures var w := LinkNode(m, n, last);
      && Chain(w) && EndsInOrder(w) && Grows(m, w)
      && Follows(w, n, last) && Behind(w, last) && HeadRank(w) == HeadRank(m)
      && w.linked == m.linked + [n]
  {
    assert InPlace(m, last) && InPlace(m, n);
    var w := LinkNode(m, n, last);
    forall i | 0 <= i < |w.linked| ensures Numbered(w, i) {
      assert i < |m.linked| ==> Numbered(m, i);
    }
    forall id | 0 <= id < |w.heap| ensures InPlace(w, id) {
      assert InPlace(m, id);
    }
  }

  lemma TailKeeps(m: Memory, last: NodeId, next: NodeId)
    requires Chain(m) && EndsInOrder(m) && Follows(m, next, last)
    ensures var w := ExchangeTail(m, last, next);
      Chain(w) && EndsInOrder(w) && Grows(m, w) && HeadRank(w) == HeadRank(m)
  {
    SameChain(m, ExchangeTail(m, last, next));
  }

  /** The chain depends on ranks, next pointers and link order only. */
  lemma SameChain(m: Memory, w: Memory)
    requires Chain(m) && w.linked == m.linked && |w.heap| == |m.heap|
    requires forall id :: 0 <= id < |m.heap| ==>
      w.heap[id].rank == m.heap[id].rank && w.heap[id].next == m.heap[id].next
    ensures Chain(w)
  {
    forall i | 0 <= i < |w.linked| ensures Numbered(w, i) {
      assert Numbered(m, i);
    }
    forall id | 0 <= id < |w.heap| ensures InPlace(w, id) {
      assert InPlace(m, id);
    }
  }

  lemma HeadKeeps(m: Memory, next: NodeId)
    requires Chain(m) && EndsInOrder(m) && m.head.At? && Follows(m, next, m.head.id) && Behind(m, next)
    ensures var w := m.(head := At(next)); Chain(w) && EndsInOrder(w) && Grows(m, w) && HeadRank(w) == HeadRank(m) + 1
  {
    SameChain(m, m.(head := At(next)));
  }

  lemma AllocateKeeps(m: Memory, item: Item, p: Pid)
    requires Chain(m) && EndsInOrder(m)
    ensures var w := Allocate(m, item, p); Chain(w) && EndsInOrder(w) && Grows(m, w) && HeadRank(w) == HeadRank(m)
  {
    var w := Allocate(m, item, p);
    forall i | 0 <= i < |w.linked| ensures Numbered(w, i) {
      assert Numbered(m, i);
    }
    forall id | 0 <= id < |w.heap| ensures InPlace(w, id) {
      assert id < |m.heap| ==> InPlace(m, id);
    }
  }

  lemma TakeKeeps(m: Memory, id: NodeId)
    requires Chain(m) && EndsInOrder(m) && id < |m.heap|
    ensures var w := Take(m, id); Chain(w) && EndsInOrder(w) && Grows(m, w) && HeadRank(w) == HeadRank(m)
  {
    SameChain(m, Take(m, id));
  }

  lemma ConsumerStays(m: Memory, w: Memory, c: Consumer, sawEmpty: bool)
    requires Grows(m, w) && ConsumerOk(m, c, sawEmpty)
    requires w.head == m.head && HeadRank(w) == HeadRank(m)
    ensures ConsumerOk(w, c, sawEmpty)
  {
    hide Behind, Follows;
    match c
    case GetHead(last) => BehindStays(m, w, last); RankStays(m, w, last);
    case GetNext(last, first) => BehindStays(m, w, last); RankStays(m, w, last);
    case RecheckHead(last, first, found) =>
      BehindStays(m, w, last);
      RankStays(m, w, last);
      if found.At? { FollowsStays(m, w, found.id, first.id); }
    case Help(last, next) => BehindStays(m, w, last); FollowsStays(m, w, next, last);
    case MoveHead(first, found) => FollowsStays(m, w, found.id, first.id); BehindStays(m, w, found.id);
    case _ =>
  }

  lemma RankStays(m: Memory, w: Memory, id: NodeId)
    requires Grows(m, w) && Behind(m, id)
    ensures Rank(w, id) == Rank(m, id)
  {
  }

  lemma CountedAfter(producers: map<Pid, Producer>, p: Pid, q: Producer)
    ensures |CountedPushes(producers[p := q])| == |CountedPushes(producers)|
              - (if p in producers && Counted(producers[p]) then 1 else 0) + (if Counted(q) then 1 else 0)
    ensures |FinishingPushes(producers[p := q])| == |FinishingPushes(producers)|
              - (if p in producers && Finishing(producers[p]) then 1 else 0) + (if Finishing(q) then 1 else 0)
  {
    ThoseAfter(producers, p, q, Counted);
    ThoseAfter(producers, p, q, Finishing);
  }

  lemma HeldAfter(m: Memory, w: Memory, producers: map<Pid, Producer>, p: Pid, q: Producer)
    requires NoNodeLost(m, producers) && |w.heap| == |m.heap| && p in producers
    requires forall id :: 0 <= id < |m.heap| ==>
      w.heap[id].owner == m.heap[id].owner && (w.heap[id].rank == -1 ==> m.heap[id].rank == -1)
    requires Holds(producers[p]) ==> (Holds(q) && q.node == producers[p].node) || Rank(w, producers[p].node) != -1
    ensures NoNodeLost(w, producers[p := q])
  {
    forall id | 0 <= id < |w.heap| && w.heap[id].rank == -1
      ensures HeldBy(w.heap[id].owner, id, producers[p := q])
    {
      assert HeldBy(m.heap[id].owner, id, producers);
    }
  }

  /** A step of producer `p` that leaves the memory as `w` and `p` as `q`. */
  lemma PushTransition(s: State, t: State, p: Pid)
    requires Inv(s) && p in s.producers && p in t.producers && t.producers == s.producers[p := t.producers[p]]
    requires t.consumer == s.consumer && t.sawEmpty == s.sawEmpty && t.returned == s.returned && !t.fault
    requires Chain(t.mem) && EndsInOrder(t.mem) && Grows(s.mem, t.mem)
    requires t.mem.head == s.mem.head && HeadRank(t.mem) == HeadRank(s.mem) && |t.mem.heap| == |s.mem.heap|
    requires ItemsOk(t.mem, InHand(t.consumer), t.returned)
    requires forall id :: 0 <= id < |s.mem.heap| && s.mem.heap[id].owner != p ==>
      t.mem.heap[id].rank == s.mem.heap[id].rank
    requires ProducerOk(t.mem, p, t.producers[p])
    requires Holds(s.producers[p]) ==>
      (Holds(t.producers[p]) && t.producers[p].node == s.producers[p].node) || Rank(t.mem, s.producers[p].node) != -1
    requires t.outstanding - |t.mem.linked| - (if Counted(t.producers[p]) then 1 else 0) ==
      s.outstanding - |s.mem.linked| - (if Counted(s.producers[p]) then 1 else 0)
    requires t.totalPushed - |t.mem.linked| + (if Finishing(t.producers[p]) then 1 else 0) ==
      s.totalPushed - |s.mem.linked| + (if Finishing(s.producers[p]) then 1 else 0)
    ensures Inv(t)
  {
    hide Chain, EndsInOrder, ItemsOk, Counted, CountedPushes, FinishingPushes;
    hide ProducersOk, ProducerOk, ConsumerOk, HeadRank, Rank, NoNodeLost;
    var q := t.producers[p];
    CountedAfter(s.producers, p, q);
    OthersStay(s.mem, t.mem, s.producers, p, q);
    ConsumerStays(s.mem, t.mem, s.consumer, s.sawEmpty);
    HeldAfter(s.mem, t.mem, s.producers, p, q);
  }

  lemma ItemsAfterLink(m: Memory, n: NodeId, last: NodeId, inHand: nat, returned: seq<Item>)
    requires Chain(m) && n < |m.heap| && last < |m.heap| && m.heap[n].rank == -1
    requires ItemsOk(m, inHand, returned) && HeadRank(LinkNode(m, n, last)) == HeadRank(m)
    ensures ItemsOk(LinkNode(m, n, last), inHand, returned)
  {
    var w := LinkNode(m, n, last);
    forall i | 0 <= i < |m.linked|
      ensures w.linked[i] == m.linked[i] && m.linked[i] < |m.heap|
      ensures w.heap[w.linked[i]].item == m.heap[m.linked[i]].item
      ensures w.heap[w.linked[i]].moved == m.heap[m.linked[i]].moved
    {
      assert Numbered(m, i);
    }
    HeadIsLinked(m);
    forall id | 0 <= id < |m.heap| && w.heap[id].rank == -1
      ensures !w.heap[id].moved
    {
    }
  }

  lemma HeadIsLinked(m: Memory)
    requires Chain(m)
    ensures HeadRank(m) < |m.linked|
  {
    if m.head.At? && m.head.id < |m.heap| {
      assert InPlace(m, m.head.id);
    }
  }

  lemma TailIsLinked(m: Memory)
    requires Chain(m) && EndsInOrder(m)
    ensures Behind(m, m.tail) && HeadRank(m) <= Rank(m, m.tail)
  {
    assert InPlace(m, m.tail);
  }

  lemma GrowsSelf(m: Memory)
    ensures Grows(m, m)
  {
  }

  lemma PushStepKeeps(s: State, p: Pid)
    requires Inv(s) && p in s.producers
    ensures Inv(StepPush(s, p, s.producers[p]))
  {
    hide Chain, EndsInOrder, ItemsOk, CountedPushes, FinishingPushes, NoNodeLost, ConsumerOk;
    hide HeadRank, Behind, Follows, Grows, QueueEmpty, NextOf;
    var q, t, m := s.producers[p], StepPush(s, p, s.producers[p]), s.mem;
    assert ProducerOk(m, p, q);
    GrowsSelf(m);
    TailIsLinked(m);
    match q
    case Resting =>
    case Link(n, last) => LinkStepKeeps(s, p);
    case HelpTail(n, last, next) => TailStepKeeps(s, t, p, last, next);
    case SwingTail(n, last) => TailStepKeeps(s, t, p, last, n);
    case LoadNext(n, last) =>
      BehindIsLinked(m, last);
      NextFollows(m, last);
      PushTransition(s, t, p);
    case AddOutstanding(n) => PushTransition(s, t, p);
    case LoadTail(n) => PushTransition(s, t, p);
    case RecheckTail(n, last, found) => PushTransition(s, t, p);
    case AddTotal => PushTransition(s, t, p);
  }

  lemma BehindIsLinked(m: Memory, id: NodeId)
    requires Behind(m, id)
    ensures IsLinked(m, id)
  {
  }

  lemma TailStepKeeps(s: State, t: State, p: Pid, last: NodeId, next: NodeId)
    requires Inv(s) && p in s.producers && Follows(s.mem, next, last)
    requires s.producers[p] == SwingTail(next, last)
      || (s.producers[p].HelpTail? && s.producers[p].last == last && s.producers[p].next == next)
    requires t == StepPush(s, p, s.producers[p])
    ensures Inv(t)
  {
    hide Chain, EndsInOrder, CountedPushes, FinishingPushes, NoNodeLost, ConsumerOk, HeadRank, Follows;
    assert ProducerOk(s.mem, p, s.producers[p]);
    TailKeeps(s.mem, last, next);
    PushTransition(s, t, p);
  }

  lemma NextFollows(m: Memory, id: NodeId)
    requires Chain(m) && IsLinked(m, id)
    ensures NextOf(m, id).At? ==> Follows(m, NextOf(m, id).id, id)
    ensures NextOf(m, id) == Null <==> Rank(m, id) == |m.linked| - 1
  {
    assert InPlace(m, id);
    if Rank(m, id) < |m.linked| - 1 {
      assert Numbered(m, Rank(m, id) + 1);
    }
  }

  lemma LinkStepKeeps(s: State, p: Pid)
    requires Inv(s) && p in s.producers && s.producers[p].Link?
    ensures Inv(StepPush(s, p, s.producers[p]))
  {
    var q, t, m := s.producers[p], StepPush(s, p, s.producers[p]), s.mem;
    assert ProducerOk(m, p, q);
    if m.heap[q.last].next == Null {
      LinkKeeps(m, q.node, q.last);
      ItemsAfterLink(m, q.node, q.last, InHand(s.consumer), s.returned);
    }
    PushTransition(s, t, p);
  }

  // ---------------------------------------------------------------- steps of the consumer

  lemma PopTransition(s: State, t: State)
    requires Inv(s) && t.producers == s.producers && t.totalPushed == s.totalPushed && !t.fault
    requires Chain(t.mem) && EndsInOrder(t.mem) && Grows(s.mem, t.mem) && |t.mem.heap| == |s.mem.heap|
    requires forall id :: 0 <= id < |s.mem.heap| ==> t.mem.heap[id].rank == s.mem.heap[id].rank
    requires t.mem.linked == s.mem.linked
    requires ConsumerOk(t.mem, t.consumer, t.sawEmpty) && ItemsOk(t.mem, InHand(t.consumer), t.returned)
    requires t.outstanding + HeadRank(t.mem) - (if t.consumer.SubtractOutstanding? then 1 else 0) ==
      s.outstanding + HeadRank(s.mem) - (if s.consumer.SubtractOutstanding? then 1 else 0)
    ensures Inv(t)
  {
    hide Chain, EndsInOrder, ItemsOk, CountedPushes, FinishingPushes, ConsumerOk, HeadRank, Rank, Behind, Follows;
    forall p | p in s.producers
      ensures ProducerOk(t.mem, p, t.producers[p])
    {
      ProducerStays(s.mem, t.mem, p, s.producers[p]);
    }
    forall id | 0 <= id < |t.mem.heap| && t.mem.heap[id].rank == -1
      ensures HeldBy(t.mem.heap[id].owner, id, t.producers)
    {
      assert HeldBy(s.mem.heap[id].owner, id, s.producers);
    }
  }

  lemma PopStepKeeps(s: State, spurious: bool)
    requires Inv(s)
    ensures Inv(Observe(StepPop(s, spurious)))
  {
    hide Chain, EndsInOrder, ItemsOk, CountedPushes, FinishingPushes, NoNodeLost, ProducersOk;
    hide HeadRank, Behind, Follows, Grows, QueueEmpty, NextOf;
    var t, m := StepPop(s, spurious), s.mem;
    GrowsSelf(m);
    TailIsLinked(m);
    match s.consumer
    case GetNext(last, first) => GetNextKeeps(s);
    case RecheckHead(last, first, found) => RecheckKeeps(s);
    case Help(last, next) => HelpKeeps(s);
    case MoveHead(first, found) => MoveHeadKeeps(s, spurious);
    case SubtractOutstanding(found) => SubtractKeeps(s);
    case TakeItem(found) => TakeItemKeeps(s);
    case _ => PopTransition(s, Observe(t));
  }

  lemma GetNextKeeps(s: State)
    requires Inv(s) && s.consumer.GetNext?
    ensures Inv(Observe(StepPop(s, false)))
  {
    hide CountedPushes, FinishingPushes, NoNodeLost, ProducersOk, ItemsOk, Follows, Grows;
    var t, m := Observe(StepPop(s, false)), s.mem;
    GrowsSelf(m);
    assert InPlace(m, m.head.id) && InPlace(m, s.consumer.last);
    NextFollows(m, m.head.id);
    PopTransition(s, t);
  }

  lemma RecheckKeeps(s: State)
    requires Inv(s) && s.consumer.RecheckHead?
    ensures Inv(Observe(StepPop(s, false)))
  {
    hide Chain, EndsInOrder, CountedPushes, FinishingPushes, NoNodeLost, ProducersOk, ItemsOk, QueueEmpty;
    hide Grows, Behind, Follows, HeadRank;
    GrowsSelf(s.mem);
    RecheckedIsBehind(s.mem, s.consumer.last, s.consumer.first, s.consumer.found);
    PopTransition(s, Observe(StepPop(s, false)));
  }

  /** The node after the head is not beyond the tail, unless the head is where the tail was. */
  lemma RecheckedIsBehind(m: Memory, last: NodeId, first: Ptr, found: Ptr)
    requires Chain(m) && Behind(m, last) && first == m.head && first.At? && HeadRank(m) <= Rank(m, last)
    requires found.At? ==> Follows(m, found.id, first.id)
    ensures first != At(last) && found.At? ==> Behind(m, found.id)
  {
    if found.At? {
      assert InPlace(m, last) && InPlace(m, first.id);
    }
  }

  lemma HelpKeeps(s: State)
    requires Inv(s) && s.consumer.Help?
    ensures Inv(Observe(StepPop(s, false)))
  {
    hide Chain, EndsInOrder, CountedPushes, FinishingPushes, NoNodeLost, ProducersOk, Follows, HeadRank, QueueEmpty;
    TailKeeps(s.mem, s.consumer.last, s.consumer.next);
    PopTransition(s, Observe(StepPop(s, false)));
  }

  lemma MoveHeadKeeps(s: State, spurious: bool)
    requires Inv(s) && s.consumer.MoveHead?
    ensures Inv(Observe(StepPop(s, spurious)))
  {
    hide Chain, EndsInOrder, CountedPushes, FinishingPushes, NoNodeLost, ProducersOk, Follows, QueueEmpty, Behind, Rank;
    GrowsSelf(s.mem);
    HeadKeeps(s.mem, s.consumer.found.id);
    assert HeadRank(s.mem) >= 0 by { HeadIsBounded(s.mem); }
    PopTransition(s, Observe(StepPop(s, spurious)));
  }

  lemma HeadIsBounded(m: Memory)
    requires Chain(m) && EndsInOrder(m)
    ensures 0 <= HeadRank(m) < |m.linked| && m.head.At? && IsLinked(m, m.head.id) && m.linked[HeadRank(m)] == m.head.id
  {
    assert InPlace(m, m.head.id);
  }

  lemma SubtractKeeps(s: State)
    requires Inv(s) && s.consumer.SubtractOutstanding?
    ensures Inv(Observe(StepPop(s, false)))
  {
    hide Chain, EndsInOrder, CountedPushes, FinishingPushes, NoNodeLost, ProducersOk, QueueEmpty, Rank;
    HeadIsBounded(s.mem);
    GrowsSelf(s.mem);
    PopTransition(s, Observe(StepPop(s, false)));
  }

  lemma TakeItemKeeps(s: State)
    requires Inv(s) && s.consumer.TakeItem?
    ensures Inv(Observe(StepPop(s, false)))
  {
    hide Chain, EndsInOrder, CountedPushes, FinishingPushes, NoNodeLost, ProducersOk, QueueEmpty, HeadRank;
    var m, t := s.mem, Observe(StepPop(s, false));
    HeadIsBounded(m);
    TakeKeeps(m, m.head.id);
    ItemsAfterTake(m, s.returned);
    PopTransition(s, t);
  }

  lemma ItemsAfterTake(m: Memory, returned: seq<Item>)
    requires Chain(m) && ItemsOk(m, 1, returned) && HeadRank(m) >= 1
    requires IsLinked(m, m.head.id) && m.linked[HeadRank(m)] == m.head.id
    requires HeadRank(Take(m, m.head.id)) == HeadRank(m)
    ensures !m.heap[m.head.id].moved
    ensures ItemsOk(Take(m, m.head.id), 0, returned + [m.heap[m.head.id].item])
  {
    var w, k := Take(m, m.head.id), HeadRank(m);
    assert Numbered(m, k);
    forall i | 0 <= i < |m.linked| ensures m.linked[i] < |m.heap| && (m.linked[i] == m.head.id ==> i == k) {
      assert Numbered(m, i);
    }
  }

  lemma StartPushKeeps(s: State, p: Pid, item: Item)
    requires Inv(s)
    ensures Inv(Act(s, StartPush(p, item)))
  {
    hide Chain, EndsInOrder, CountedPushes, FinishingPushes, Counted, ConsumerOk, ProducersOk;
    hide HeadRank, Rank, Follows, Behind;
    if !(p in s.producers && s.producers[p] != Resting) {
      var m, q, t := s.mem, AddOutstanding(|s.mem.heap|), Act(s, StartPush(p, item));
      AllocateKeeps(m, item, p);
      OthersStay(m, t.mem, s.producers, p, q);
      ConsumerStays(m, t.mem, s.consumer, s.sawEmpty);
      CountedAfter(s.producers, p, q);
      NotCounted(q);
      NotCounted(Resting);
      forall id | 0 <= id < |t.mem.heap| && t.mem.heap[id].rank == -1
        ensures HeldBy(t.mem.heap[id].owner, id, t.producers)
      {
        assert id < |m.heap| ==> HeldBy(m.heap[id].owner, id, s.producers);
      }
      ItemsAfterAllocate(m, item, p, InHand(s.consumer), s.returned);
    }
  }

  lemma NotCounted(q: Producer)
    ensures q.Resting? || q.AddOutstanding? ==> !Counted(q) && !Finishing(q)
  {
  }

  lemma ItemsAfterAllocate(m: Memory, item: Item, p: Pid, inHand: nat, returned: seq<Item>)
    requires Chain(m) && ItemsOk(m, inHand, returned) && HeadRank(Allocate(m, item, p)) == HeadRank(m)
    ensures ItemsOk(Allocate(m, item, p), inHand, returned)
  {
    forall i | 0 <= i < |m.linked| ensures m.linked[i] < |m.heap| {
      assert Numbered(m, i);
    }
  }

  lemma ObserveKeeps(s: State)
    requires Inv(s)
    ensures Inv(Observe(s))
  {
    hide Chain, EndsInOrder, ItemsOk, CountedPushes, FinishingPushes, NoNodeLost, ProducersOk;
    hide HeadRank, Behind, Follows, QueueEmpty;
  }

  lemma StepKeeps(s: State, a: Action)
    requires Inv(s)
    ensures Inv(Observe(Act(s, a)))
  {
    hide Inv, Observe, StepPush, StepPop;
    match a
    case StartPush(p, item) => StartPushKeeps(s, p, item); ObserveKeeps(Act(s, a));
    case StepProducer(p) =>
      if p in s.producers { PushStepKeeps(s, p); }
      ObserveKeeps(Act(s, a));
    case StartPop(wait) => StartPopKeeps(s, wait); ObserveKeeps(Act(s, a));
    case StepConsumer(spurious) => PopStepKeeps(s, spurious);
  }

  lemma StartPopKeeps(s: State, wait: bool)
    requires Inv(s)
    ensures Inv(Act(s, StartPop(wait)))
  {
    hide Chain, EndsInOrder, ItemsOk, CountedPushes, FinishingPushes, NoNodeLost, ProducersOk, HeadRank;
  }
}
