/**
 The pipe in scheduled mode without outside readers: immediate writes first in order, then
 scheduled writes by deadline, one worker, and a shutdown that drains.

 `PipeObject` is the object; the functions on `Pipe` values say what its critical sections do.
 `State` adds the worker, the clock and what has been delivered.
 */
module ScheduledPipe {
  import opened Common

  type Time = int

  /** `id` numbers accepted writes; an immediate write has no deadline. */
  datatype Item = Item(id: nat, deadline: Option<Time>)

  datatype Pipe = Pipe(
    immediate: seq<Item>, scheduled: seq<Item>, count: nat, submitted: nat, failed: bool, down: bool)

  const EMPTY := Pipe([], [], 0, 0, false, false)

  datatype Choice = Take(item: Item) | SleepUntil(deadline: Time) | Sleep | Leave

  /** Earlier deadline first, then earlier submission. */
  predicate Before(a: Item, b: Item) {
    a.deadline.Some? && b.deadline.Some? &&
    (a.deadline.value < b.deadline.value || (a.deadline.value == b.deadline.value && a.id < b.id))
  }

  // ---------------------------------------------------------------- critical sections

  /** An item's key in the deadline queue. */
  function Due(item: Item): (t: Time) {
    if item.deadline.Some? then item.deadline.value else 0
  }

  /** The multimap puts an element behind those with the same key. */
  function Emplace(queue: seq<Item>, item: Item): (r: seq<Item>) {
    if queue == [] || Due(item) < Due(queue[0]) then [item] + queue
    else [queue[0]] + Emplace(queue[1..], item)
  }

  predicate AllTimed(queue: seq<Item>) {
    forall x :: x in queue ==> x.deadline.Some?
  }

  function Written(p: Pipe): (r: Pipe) {
    if p.down then p
    else p.(immediate := p.immediate + [Item(p.submitted, None)], submitted := p.submitted + 1)
  }

  function WrittenAt(p: Pipe, deadline: Time): (r: Pipe) {
    if p.down then p
    else p.(scheduled := Emplace(p.scheduled, Item(p.submitted, Some(deadline))), submitted := p.submitted + 1)
  }

  /** One pass of the worker's inner loop at time `now`. */
  function Chosen(p: Pipe, now: Time): (r: (Pipe, Choice)) {
    if p.failed then (p, Leave)
    else if p.immediate != [] then (p.(immediate := p.immediate[1..]), Take(p.immediate[0]))
    else if p.scheduled != [] then
      if Due(p.scheduled[0]) <= now then (p.(scheduled := p.scheduled[1..]), Take(p.scheduled[0]))
      else (p, SleepUntil(Due(p.scheduled[0])))
    else if p.down then (p, Leave)
    else (p, Sleep)
  }

  class PipeObject {
    var immediate: seq<Item>
    var scheduled: seq<Item>
    var count: nat
    var submitted: nat
    var failed: bool
    var down: bool

    function Value(): (p: Pipe)
      reads this
    {
      Pipe(immediate, scheduled, count, submitted, failed, down)
    }

    predicate Valid()
      reads this
    {
      Numbered(Value())
    }

    constructor ()
      ensures Valid() && Value() == EMPTY
    {
      immediate, scheduled, count, submitted, failed, down := [], [], 0, 0, false, false;
    }

    method Write() returns (accepted: bool)
      requires Valid()
      modifies this
      ensures Valid()
      ensures accepted ==>
        && immediate == old(immediate) + [Item(old(submitted), None)]
        && scheduled == old(scheduled) && count == old(count) && submitted == old(submitted) + 1
      ensures !accepted ==> Value() == old(Value())
      ensures Value() == Written(old(Value())) && accepted == !old(down)
    {
      if down {
        return false;
      }
      immediate := immediate + [Item(submitted, None)];
      submitted := submitted + 1;
      accepted := true;
    }

    /** The new item goes behind all with the same or an earlier deadline, and before all later ones. */
    method WriteAt(deadline: Time) returns (accepted: bool)
      requires Valid()
      modifies this
      ensures Valid()
      ensures accepted ==>
        && InOrder(scheduled)
        && multiset(scheduled) == multiset(old(scheduled)) + multiset{Item(old(submitted), Some(deadline))}
        && immediate == old(immediate) && count == old(count) && submitted == old(submitted) + 1
      ensures !accepted ==> Value() == old(Value())
      ensures Value() == WrittenAt(old(Value()), deadline) && accepted == !old(down)
    {
      if down {
        return false;
      }
      var item := Item(submitted, Some(deadline));
      EmplaceKeepsOrder(scheduled, item);
      EmplaceMultiset(scheduled, item);
      scheduled := Emplace(scheduled, item);
      submitted := submitted + 1;
      accepted := true;
    }

    /**
     Leave after a failure or when all is drained and shut down; otherwise take the first immediate
     item, or the first scheduled one if it is due; otherwise sleep.
     */
    method Choose(now: Time) returns (choice: Choice)
      requires Valid()
      modifies this
      ensures Valid()
      ensures choice == Leave <==> old(failed) || (old(immediate) == old(scheduled) == [] && old(down))
      ensures choice == Sleep <==> !old(failed) && old(immediate) == old(scheduled) == [] && !old(down)
      ensures choice.SleepUntil? <==>
        !old(failed) && old(immediate) == [] && old(scheduled) != [] && old(scheduled)[0].deadline.value > now
      ensures choice.SleepUntil? ==> old(scheduled)[0].deadline == Some(choice.deadline)
      ensures choice.Take? ==>
        && [choice.item] + immediate + scheduled == old(immediate) + old(scheduled)
        && (old(immediate) != [] ==> scheduled == old(scheduled))
        && count == old(count) && submitted == old(submitted) && failed == old(failed) && down == old(down)
      ensures !choice.Take? ==> Value() == old(Value())
      ensures (Value(), choice) == Chosen(old(Value()), now)
    {
      if failed {
        return Leave;
      }
      if immediate != [] {
        choice := Take(immediate[0]);
        immediate := immediate[1..];
        return;
      }
      if scheduled != [] {
        var deadline := Due(scheduled[0]);
        if deadline <= now {
          choice := Take(scheduled[0]);
          scheduled := scheduled[1..];
          return;
        }
        return SleepUntil(deadline);
      }
      return if down then Leave else Sleep;
    }

    method Processed()
      modifies `count
      ensures count == old(count) + 1
    {
      count := count + 1;
    }

    method RecordFailure()
      modifies `failed
      ensures failed
    {
      failed := true;
    }

    method BeginShutdown()
      modifies `down
      ensures down
    {
      down := true;
    }
  }

  // ---------------------------------------------------------------- worker, clock and history

  datatype Worker = Choosing | Processing(item: Item) | Exited(dropped: Option<Item>)

  /** `seen` is how many writes had been accepted when the item was chosen. */
  datatype Delivery = Delivery(item: Item, time: Time, seen: nat)

  datatype State = State(p: Pipe, worker: Worker, clock: Time, accepted: seq<Item>, deliveries: seq<Delivery>)

  datatype Action =
    | Write
    | WriteAt(deadline: Time)
    | Choose
    | Finish(throws: bool)
    | Shutdown
    | Advance(elapsed: nat)

  function Initial(start: Time): (s: State) {
    State(EMPTY, Choosing, start, [], [])
  }

  function Next(s: State, a: Action): (t: State) {
    match a
    case Write => if s.p.down then s else s.(p := Written(s.p), accepted := s.accepted + [Item(s.p.submitted, None)])
    case WriteAt(d) =>
      if s.p.down then s else s.(p := WrittenAt(s.p, d), accepted := s.accepted + [Item(s.p.submitted, Some(d))])
    case Choose =>
      if s.worker != Choosing then s
      else
        var (p, choice) := Chosen(s.p, s.clock);
        if choice.Take? then
          s.(p := p, worker := Processing(choice.item),
             deliveries := s.deliveries + [Delivery(choice.item, s.clock, s.p.submitted)])
        else if choice == Leave then s.(worker := Exited(None))
        else s
    case Finish(throws) =>
      if !s.worker.Processing? then s
      else if throws then s.(p := s.p.(failed := true), worker := Exited(Some(s.worker.item)))
      else s.(p := s.p.(count := s.p.count + 1), worker := Choosing)
    case Shutdown => s.(p := s.p.(down := true))
    case Advance(elapsed) => s.(clock := s.clock + elapsed)
  }

  // ---------------------------------------------------------------- the invariant

  predicate InOrder(queue: seq<Item>) {
    forall i, j :: 0 <= i < j < |queue| ==> Before(queue[i], queue[j])
  }

  predicate Numbered(p: Pipe) {
    && AllTimed(p.scheduled) && InOrder(p.scheduled)
    && (forall x :: x in p.scheduled ==> x.id < p.submitted)
    && (forall x :: x in p.immediate ==> x.deadline == None)
  }

  function InHand(w: Worker): (n: nat) {
    if w.Processing? || (w.Exited? && w.dropped.Some?) then 1 else 0
  }

  predicate CountsOk(s: State) {
    s.p.submitted == s.p.count + InHand(s.worker) + |s.p.immediate| + |s.p.scheduled|
  }

  predicate WorkerOk(s: State) {
    && (s.worker.Exited? && s.worker.dropped == None ==>
          s.p.down && s.p.immediate == [] && s.p.scheduled == [] && !s.p.failed)
    && (s.p.failed <==> s.worker.Exited? && s.worker.dropped.Some?)
  }

  /** No item was delivered before its deadline. */
  predicate OnTime(s: State) {
    forall i :: 0 <= i < |s.deliveries| ==>
      s.deliveries[i].item.deadline.Some? ==> s.deliveries[i].item.deadline.value <= s.deliveries[i].time <= s.clock
  }

  /** If `b` had been accepted when the scheduled item `a` was chosen, `a` comes before `b`. */
  predicate Fair(d: Delivery, b: Item) {
    d.item.deadline.Some? && b.deadline.Some? && b.id < d.seen ==> Before(d.item, b)
  }

  predicate EarlierFirst(s: State) {
    && (forall i, j :: 0 <= i < j < |s.deliveries| ==> Fair(s.deliveries[i], s.deliveries[j].item))
    && (forall i, x :: 0 <= i < |s.deliveries| && x in s.p.scheduled ==> Fair(s.deliveries[i], x))
    && (forall i :: 0 <= i < |s.deliveries| ==> s.deliveries[i].seen <= s.p.submitted)
  }

  /** The immediate items, in order. */
  function Immediates(items: seq<Item>): (r: seq<Item>) {
    if items == [] then []
    else
      var n := |items| - 1;
      Immediates(items[..n]) + (if items[n].deadline == None then [items[n]] else [])
  }

  function Items(deliveries: seq<Delivery>): (r: seq<Item>) {
    seq(|deliveries|, i requires 0 <= i < |deliveries| => deliveries[i].item)
  }

  predicate ImmediatesFifo(s: State) {
    Immediates(s.accepted) == Immediates(Items(s.deliveries)) + s.p.immediate
  }

  function Times(items: seq<Item>, x: Item): (n: nat) {
    multiset(items)[x]
  }

  /** Every accepted item is delivered or queued, as often as it was accepted. */
  ghost predicate NothingLost(s: State) {
    forall x :: Accounted(s, x)
  }

  predicate Accounted(s: State, x: Item) {
    Times(s.accepted, x) == Times(Items(s.deliveries), x) + Times(s.p.immediate, x) + Times(s.p.scheduled, x)
  }

  /** Accepted writes carry their number, so no two are the same item. */
  predicate AcceptedOk(s: State) {
    |s.accepted| == s.p.submitted && forall i :: 0 <= i < |s.accepted| ==> s.accepted[i].id == i
  }

  ghost predicate Inv(s: State) {
    && AcceptedOk(s) && Numbered(s.p) && CountsOk(s) && WorkerOk(s)
    && OnTime(s) && EarlierFirst(s) && ImmediatesFifo(s) && NothingLost(s)
  }

  // ---------------------------------------------------------------- the deadline queue

  lemma {:induction false} EmplaceKeepsOrder(queue: seq<Item>, item: Item)
    requires item.deadline.Some? && AllTimed(queue) && InOrder(queue)
    requires forall x :: x in queue ==> x.id < item.id
    ensures var r := Emplace(queue, item);
      && InOrder(r) && AllTimed(r) && |r| == |queue| + 1
      && (forall x :: x in r <==> x in queue || x == item)
  {
    if queue != [] && Due(item) >= Due(queue[0]) {
      EmplaceKeepsOrder(queue[1..], item);
      assert queue == [queue[0]] + queue[1..];
      var rest := Emplace(queue[1..], item);
      forall i | 0 <= i < |rest| ensures Before(queue[0], rest[i]) {
        assert rest[i] in queue[1..] || rest[i] == item;
        assert queue[0] in queue;
        if rest[i] in queue[1..] {
          var j :| 0 <= j < |queue[1..]| && queue[1..][j] == rest[i];
          assert Before(queue[0], queue[j + 1]);
        }
      }
    }
  }

  lemma {:induction false} EmplaceAddsOne(queue: seq<Item>, item: Item, x: Item)
    ensures Times(Emplace(queue, item), x) == Times(queue, x) + (if x == item then 1 else 0)
  {
    if queue != [] && Due(item) >= Due(queue[0]) {
      assert queue == [queue[0]] + queue[1..];
      EmplaceAddsOne(queue[1..], item, x);
    }
  }

  lemma EmplaceMultiset(queue: seq<Item>, item: Item)
    requires item.deadline.Some? && AllTimed(queue)
    ensures multiset(Emplace(queue, item)) == multiset(queue) + multiset{item}
  {
    forall x ensures multiset(Emplace(queue, item))[x] == (multiset(queue) + multiset{item})[x] {
      EmplaceAddsOne(queue, item, x);
    }
  }

  // ---------------------------------------------------------------- every step keeps it

  lemma TimesOfAppend(items: seq<Item>, item: Item, x: Item)
    ensures Times(items + [item], x) == Times(items, x) + (if x == item then 1 else 0)
  {
  }

  lemma TimesOfFirst(items: seq<Item>, x: Item)
    requires items != []
    ensures Times(items, x) == Times(items[1..], x) + (if x == items[0] then 1 else 0)
  {
    assert items == [items[0]] + items[1..];
  }

  lemma ImmediatesOfAppend(items: seq<Item>, item: Item)
    ensures Immediates(items + [item]) == Immediates(items) + (if item.deadline == None then [item] else [])
  {
    assert (items + [item])[..|items|] == items;
  }

  lemma ItemsOfAppend(deliveries: seq<Delivery>, d: Delivery)
    ensures Items(deliveries + [d]) == Items(deliveries) + [d.item]
  {
  }

  lemma WriteKeeps(s: State, a: Action)
    requires Inv(s) && (a.Write? || a.WriteAt?)
    ensures Inv(Next(s, a))
  {
    hide Times, Immediates, Items;
    var t := Next(s, a);
    if !s.p.down {
      var item := Item(s.p.submitted, if a.Write? then None else Some(a.deadline));
      ImmediatesOfAppend(s.accepted, item);
      if a.WriteAt? { EmplaceKeepsOrder(s.p.scheduled, item); }
      forall x ensures Accounted(t, x) {
        assert Accounted(s, x);
        TimesOfAppend(s.accepted, item, x);
        if a.Write? { TimesOfAppend(s.p.immediate, item, x); } else { EmplaceAddsOne(s.p.scheduled, item, x); }
      }
    }
  }

  predicate TookFirst(before: seq<Item>, after: seq<Item>, item: Item) {
    before != [] && before[0] == item && after == before[1..]
  }

  /** What taking an item keeps, apart from its own place in the order. */
  lemma TakenIsAccounted(s: State, d: Delivery, t: State)
    requires NothingLost(s) && t.accepted == s.accepted && t.deliveries == s.deliveries + [d]
    requires (TookFirst(s.p.immediate, t.p.immediate, d.item) && t.p.scheduled == s.p.scheduled)
          || (TookFirst(s.p.scheduled, t.p.scheduled, d.item) && t.p.immediate == s.p.immediate)
    ensures NothingLost(t)
  {
    hide Times, Items;
    ItemsOfAppend(s.deliveries, d);
    forall x ensures Accounted(t, x) {
      assert Accounted(s, x);
      TimesOfAppend(Items(s.deliveries), d.item, x);
      if t.p.immediate != s.p.immediate { TimesOfFirst(s.p.immediate, x); } else { TimesOfFirst(s.p.scheduled, x); }
    }
  }

  lemma TakeImmediateKeeps(s: State)
    requires Inv(s) && s.worker == Choosing && !s.p.failed && s.p.immediate != []
    ensures Inv(Next(s, Choose))
  {
    hide Times, Immediates, Items, NothingLost;
    var t, d := Next(s, Choose), Delivery(s.p.immediate[0], s.clock, s.p.submitted);
    TakenIsAccounted(s, d, t);
    ItemsOfAppend(s.deliveries, d);
    ImmediatesOfAppend(Items(s.deliveries), d.item);
    assert s.p.immediate == [s.p.immediate[0]] + s.p.immediate[1..];
    assert s.p.immediate[0] in s.p.immediate;
  }

  lemma TakeScheduledKeeps(s: State)
    requires Inv(s) && s.worker == Choosing && !s.p.failed && s.p.immediate == [] && s.p.scheduled != []
    requires Due(s.p.scheduled[0]) <= s.clock
    ensures Inv(Next(s, Choose))
  {
    hide Times, Immediates, Items, NothingLost;
    var t, d := Next(s, Choose), Delivery(s.p.scheduled[0], s.clock, s.p.submitted);
    TakenIsAccounted(s, d, t);
    ItemsOfAppend(s.deliveries, d);
    ImmediatesOfAppend(Items(s.deliveries), d.item);
    assert s.p.scheduled[0] in s.p.scheduled;
    forall x | x in t.p.scheduled ensures x in s.p.scheduled && Before(d.item, x) {
      var j :| 0 <= j < |t.p.scheduled| && t.p.scheduled[j] == x;
      assert Before(s.p.scheduled[0], s.p.scheduled[j + 1]);
    }
  }

  lemma FinishKeeps(s: State, throws: bool)
    requires Inv(s)
    ensures Inv(Next(s, Finish(throws)))
  {
    hide Times, Immediates, Items, Before;
    var t := Next(s, Finish(throws));
    forall x ensures Accounted(t, x) {
      assert Accounted(s, x);
    }
  }

  lemma QuietKeeps(s: State, a: Action)
    requires Inv(s) && (a.Shutdown? || a.Advance?)
    ensures Inv(Next(s, a))
  {
    hide Times, Immediates, Items, Before;
    var t := Next(s, a);
    forall x ensures Accounted(t, x) {
      assert Accounted(s, x);
    }
  }

  lemma LeaveKeeps(s: State)
    requires Inv(s) && s.worker == Choosing && s.p.immediate == []
    requires s.p.scheduled == [] || s.clock < Due(s.p.scheduled[0])
    ensures Inv(Next(s, Choose))
  {
    hide Times, Immediates, Items, Before;
    var t := Next(s, Choose);
    forall x ensures Accounted(t, x) {
      assert Accounted(s, x);
    }
  }

  lemma StepKeeps(s: State, a: Action)
    requires Inv(s)
    ensures Inv(Next(s, a))
  {
    match a
    case Choose =>
      if s.worker == Choosing && !s.p.failed {
        if s.p.immediate != [] {
          TakeImmediateKeeps(s);
        } else if s.p.scheduled != [] && Due(s.p.scheduled[0]) <= s.clock {
          TakeScheduledKeeps(s);
        } else {
          LeaveKeeps(s);
        }
      }
    case Finish(throws) => FinishKeeps(s, throws);
    case Write => WriteKeeps(s, a);
    case WriteAt(_) => WriteKeeps(s, a);
    case _ => QuietKeeps(s, a);
  }

  function Run(start: Time, actions: seq<Action>): (s: State) {
    if actions == [] then Initial(start)
    else Next(Run(start, actions[..|actions| - 1]), actions[|actions| - 1])
  }

  lemma {:induction false} RunsKeepInv(start: Time, actions: seq<Action>)
    ensures Inv(Run(start, actions))
  {
    if actions != [] {
      hide Inv, Next;
      RunsKeepInv(start, actions[..|actions| - 1]);
      StepKeeps(Run(start, actions[..|actions| - 1]), actions[|actions| - 1]);
    } else {
      forall x ensures Accounted(Initial(start), x) {
      }
    }
  }
}
