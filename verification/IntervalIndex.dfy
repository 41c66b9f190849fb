/**
 The interval tree as its users see it: entries in order, and for each entry an overlay
 state that is kept up to date as entries come and go.
 */
module IntervalIndex {
  import opened Common
  import opened Intervals
  import opened EntryOrder
  import opened IntervalNodes
  import opened IntervalErase
  import opened IntervalQueries
  import opened OverlayStates
  import opened CanonicalOrder

  datatype TopologyResult = TopologyResult(status: Topology, isTop: bool, overlapping: seq<(Range, Payload)>)

  type Matcher = Option<Payload -> bool>

  predicate Selects(range: Range, matcher: Matcher, e: Entry) {
    e.range == range && (matcher.Some? ==> matcher.value(e.value))
  }

  /** The entry has both endpoints of the range, and the matcher, if there is one, accepts its value. */
  predicate Wanted(range: Range, matcher: Matcher, e: Entry) {
    e.range.start == range.start && e.range.end == range.end && (matcher.None? || matcher.value(e.value))
  }

  /** Position of the first stored entry a removal selects, or the length if there is none. */
  ghost function FirstSelected(s: seq<Entry>, range: Range, matcher: Matcher): (k: nat)
    ensures k <= |s|
    ensures k < |s| ==> Selects(range, matcher, s[k])
    ensures forall j :: 0 <= j < k ==> !Selects(range, matcher, s[j])
  {
    if s == [] || Selects(range, matcher, s[0]) then 0
    else 1 + FirstSelected(s[1..], range, matcher)
  }

  class IntervalBTree {
    const cmp: Comparator
    const prio: Priority
    var root: Option<Node>
    var size: nat
    var nextOrdinal: nat
    var states: map<nat, OverlayState>
    var suppressCallbacks: bool
    ghost var height: nat

    ghost function Entries(): (s: seq<Entry>)
      reads `root
    {
      if root.None? then [] else Contents(root.value)
    }

    /** The tree is balanced with exact maxima, and its entries are in order and accounted for. */
    ghost predicate Structured()
      reads `root, `height, `size, `nextOrdinal
    {
      && (root.Some? ==> Child(root.value, height))
      && Bookkept(cmp, Entries(), size, nextOrdinal)
    }

    ghost predicate Valid()
      reads `root, `height, `size, `nextOrdinal, `states
    {
      Structured() && StatesExact(prio, Entries(), states)
    }

    constructor (comparator: Comparator, priority: Priority)
      requires LegalComparator(comparator)
      ensures Valid() && Entries() == [] && nextOrdinal == 0 && !suppressCallbacks
      ensures cmp == comparator && prio == priority
    {
      cmp, prio := comparator, priority;
      root, size, nextOrdinal, states := None, 0, 0, map[];
      suppressCallbacks := false;
      height := 0;
    }

    // -------------------------------------------------------------- reading

    method Collect() returns (s: seq<Entry>)
      requires Structured()
      ensures s == Entries()
    {
      if root.Some? {
        s := CollectEntriesInOrder(root.value, height);
      } else {
        s := [];
      }
    }

    method CalculateState(x: Entry) returns (st: OverlayState)
      requires Structured() && x.range.IsValid()
      ensures st == StateOf(prio, Entries(), x)
    {
      var entries := Collect();
      st := StateAgainst(prio, entries, x);
    }

    method HasOverlap(range: Range) returns (found: bool)
      requires Structured()
      ensures found <==> exists e :: e in Entries() && e.range.Overlaps(range)
    {
      OverlappingMembers(Entries(), range);
      NoMembers(Overlapping(Entries(), range));
      if !range.IsValid() || root.None? {
        return false;
      }
      found := HasOverlapInSubtree(root.value, range, height);
      if found {
        assert Overlapping(Entries(), range)[0] in Overlapping(Entries(), range);
      }
    }

    /** The entries that share a point with the range, in order. */
    method FindOverlapping(range: Range) returns (found: seq<Entry>)
      requires Structured() && range.IsValid()
      ensures found == Overlapping(Entries(), range)
      ensures InFieldOrder(cmp, found)
      ensures forall e :: e in found <==>
        e in Entries() && e.range.start <= range.end && range.start <= e.range.end
    {
      EntriesInFieldOrder();
      EntriesValid();
      OverlappingKeepsOrder(cmp, Entries(), range);
      OverlappingMembers(Entries(), range);
      if root.None? {
        return [];
      }
      found := VisitOverlappingInOrder(root.value, range, height);
    }

    /** Topology and rank a candidate would have, against the entries stored now. */
    method QueryTopology(range: Range, value: Payload) returns (result: Option<TopologyResult>)
      requires Structured()
      ensures result.None? <==> !range.IsValid()
      ensures result.Some? ==>
        var st := StateAmong(prio, Overlapping(Entries(), range), range, value);
        result.value == TopologyResult(st.topology, st.isTop, Pairs(Overlapping(Entries(), range)))
      ensures result.Some? ==>
        && TopologyMeans(result.value.status, range, Entries(), nextOrdinal)
        && (result.value.isTop <==>
              !exists e :: e in Entries() && prio.Some? && prio.value(e.value, value)
                && e.range.start <= range.end && range.start <= e.range.end)
    {
      hide TopologyMeans, Structured, Entries;
      if !range.IsValid() {
        return None;
      }
      var found := FindOverlapping(range);
      OverlappingMembers(Entries(), range);
      var status, isTop := ClassifyAmong(prio, found, range, value);
      result := Some(TopologyResult(status, isTop, Pairs(found)));
      EntriesValid();
      QueryOnFields(prio, Entries(), range, value, nextOrdinal);
    }

    method EnumerateCanonical(dup: DuplicateOrder) returns (snapshot: seq<(Range, Payload)>)
      requires Structured()
      ensures snapshot == Enumerated(cmp, dup, Entries())
      ensures LegalDuplicateOrder(dup) ==> IsSnapshot(cmp, dup, Entries(), snapshot)
    {
      hide Structured, Entries, StableSort, IsSnapshot, InFieldOrder, LegalComparator, LegalDuplicateOrder;
      EntriesInFieldOrder();
      if LegalDuplicateOrder(dup) {
        EnumeratedIsSnapshot(cmp, dup, Entries());
      }
      var entries := Collect();
      snapshot := Pairs(StableSort(cmp, dup, entries));
    }

    // -------------------------------------------------------------- states

    /** Remember the states of the surviving entries that overlap one of `ts`. */
    method CaptureStates(entries: seq<Entry>, ts: seq<Entry>) returns (old_: seq<(Entry, OverlayState)>)
      requires forall e :: e in entries ==> e.ordinal in states
      ensures Captures(Affected(Without(entries, ts), ts), old_, states)
    {
      hide Affected, Without, Touches;
      old_ := [];
      EmptyCapture(ts);
      for i := 0 to |entries|
        invariant Captures(Affected(Without(entries[..i], ts), ts), old_, states)
      {
        var e := entries[i];
        CaptureStep(entries, ts, i);
        if e !in ts && Touches(ts, e) {
          old_ := old_ + [(e, states[e.ordinal])];
        }
      }
      assert entries[..|entries|] == entries;
    }

    /** Recompute the captured entries' states and report those that changed. */
    method UpdateStatesAndNotify(old_: seq<(Entry, OverlayState)>, ghost es: seq<Entry>) returns (notices: seq<Notice>)
      requires Structured()
      requires Captures(es, old_, states)
      requires forall e :: e in es ==> e in Entries()
      modifies this`states
      ensures Updated(prio, es, Entries(), old(states), states)
      ensures notices == if suppressCallbacks then [] else Notices(prio, es, old(states), Entries())
    {
      hide Structured, Entries, StateOf, Notices, Bookkept, Updated, DistinctOrdinals;
      notices := [];
      ghost var s := Entries();
      EntriesValid();
      UpdateBegins(prio, es, s, states);
      for i := 0 to |old_|
        invariant Structured() && Entries() == s
        invariant Updated(prio, es[..i], s, old(states), states)
        invariant notices == Notices(prio, es[..i], old(states), s)
      {
        var e, was := old_[i].0, old_[i].1;
        assert e == es[i] && e in es;
        var now := CalculateState(e);
        forall x | x in es[..i] && x.ordinal == e.ordinal
          ensures x == e
        {
          SameOrdinalSameEntry(s, x, e);
        }
        UpdateStep(prio, es[..i], e, s, old(states), states);
        assert es[..i + 1] == es[..i] + [e];
        states := states[e.ordinal := now];
        if was != now && e.hasCallback {
          notices := notices + [Notice(e, was, now)];
        }
      }
      assert es[..|old_|] == es;
      if suppressCallbacks {
        notices := [];
      }
    }

    lemma EntriesInFieldOrder()
      requires Structured()
      ensures InFieldOrder(cmp, Entries()) && LegalComparator(cmp)
    {
      hide Entries, RangesInOrder, EntryLess;
      SortedOnFields(cmp, Entries());
    }

    /** What the recorded state of a stored entry says of the other entries. */
    lemma StateOfStored(x: Entry)
      requires Valid() && x in Entries()
      ensures x.ordinal in states
      ensures TopologyMeans(states[x.ordinal].topology, x.range, Entries(), x.ordinal)
      ensures states[x.ordinal].isTop <==>
        !exists e :: e in Entries() && e.ordinal != x.ordinal && prio.Some? && prio.value(e.value, x.value)
          && e.range.start <= x.range.end && x.range.start <= e.range.end
    {
      hide Entries, TopologyMeans, StateOf;
      EntriesValid();
      StateOnFields(prio, Entries(), x);
    }

    lemma EntriesValid()
      requires Structured()
      ensures DistinctOrdinals(Entries())
      ensures forall e :: e in Entries() ==> e.range.IsValid() && e.ordinal < nextOrdinal
    {
    }

    // -------------------------------------------------------------- adding

    /** Put an entry into the tree; states are brought up to date by the caller. */
    method Place(e: Entry)
      requires Structured() && e.range.IsValid() && e.ordinal == nextOrdinal
      modifies this`root, this`size, this`height, this`nextOrdinal
      ensures Structured() && nextOrdinal == old(nextOrdinal) + 1
      ensures Entries() == Insert(cmp, old(Entries()), e)
    {
      hide Contents, Balanced, Insert, Sorted, DistinctOrdinals;
      InsertBookkept(cmp, Entries(), size, nextOrdinal, e);
      EmptyLeaf();
      var top := if root.Some? then root.value else Node([], [], INT64_MIN, true);
      ghost var h := if root.Some? then height else 0;
      assert Contents(top) == Entries();
      var r;
      r, h := InsertRoot(cmp, top, e, h);
      root, height := Some(r), h;
      nextOrdinal := nextOrdinal + 1;
      size := size + 1;
    }

    /** Add an entry whose ordinal is the next one, with all states brought up to date. */
    method InsertEntry(e: Entry) returns (notices: seq<Notice>)
      requires Valid() && e.range.IsValid() && e.ordinal == nextOrdinal
      modifies this`root, this`size, this`height, this`nextOrdinal, this`states
      ensures Valid()
      ensures Entries() == Insert(cmp, old(Entries()), e) && nextOrdinal == old(nextOrdinal) + 1
      ensures notices == if suppressCallbacks then [] else Notices(prio, old(Entries()), old(states), Entries())
    {
      hide Structured, Entries, StateOf, Notices, Insert, Affected, Without;
      ghost var s, before := Entries(), states;
      var existing := Collect();
      EntriesValid();
      WithoutMembers(s, [e]);
      var oldStates := CaptureStates(existing, [e]);
      ghost var affected := Affected(s, [e]);
      AffectedMembers(s, [e]);
      InsertMembers(cmp, s, e);
      Place(e);
      var st := CalculateState(e);
      states := states[e.ordinal := st];
      ghost var updating := states;
      notices := UpdateStatesAndNotify(oldStates, affected);
      AfterInsert(prio, cmp, s, e, before, updating, affected, states);
      NoticesSame(prio, affected, before, updating, Entries());
      OnlyAffectedAreTold(prio, s, [e], before, Entries());
    }

    /** Add an entry; an invalid range changes nothing. */
    method Add(range: Range, value: Payload, onStateChange: bool) returns (ok: bool, notices: seq<Notice>)
      requires Valid() && !suppressCallbacks
      modifies this`root, this`size, this`height, this`nextOrdinal, this`states
      ensures Valid() && ok == range.IsValid()
      ensures !ok ==> Entries() == old(Entries()) && states == old(states) && notices == []
      ensures ok ==> Entries() == Insert(cmp, old(Entries()), Entry(range, value, old(nextOrdinal), onStateChange))
      ensures InFieldOrder(cmp, Entries())
      ensures ok ==>
        multiset(Entries()) == multiset(old(Entries())) + multiset{Entry(range, value, old(nextOrdinal), onStateChange)}
      ensures ok ==> notices == Notices(prio, old(Entries()), old(states), Entries())
    {
      ok := range.IsValid();
      notices := [];
      if ok {
        InsertMembers(cmp, Entries(), Entry(range, value, nextOrdinal, onStateChange));
        notices := InsertEntry(Entry(range, value, nextOrdinal, onStateChange));
      }
      EntriesInFieldOrder();
    }

    /** Add an entry and report the state it starts with. */
    method AddWithTopology(range: Range, value: Payload, onStateChange: bool)
      returns (result: Option<TopologyResult>, notices: seq<Notice>)
      requires Valid() && !suppressCallbacks
      modifies this`root, this`size, this`height, this`nextOrdinal, this`states
      ensures Valid() && (result.Some? <==> range.IsValid())
      ensures result.None? ==> Entries() == old(Entries()) && notices == []
      ensures result.Some? ==>
        && Entries() == Insert(cmp, old(Entries()), Entry(range, value, old(nextOrdinal), onStateChange))
        && notices == Notices(prio, old(Entries()), old(states), Entries())
        && old(nextOrdinal) in states
        && states[old(nextOrdinal)] == OverlayState(result.value.status, result.value.isTop)
        && result.value.overlapping == Pairs(Overlapping(old(Entries()), range))
    {
      notices := [];
      result := QueryTopology(range, value);
      if result.Some? {
        ghost var s := Entries();
        var e := Entry(range, value, nextOrdinal, onStateChange);
        notices := InsertEntry(e);
        InsertMembers(cmp, s, e);
        NewEntryState(prio, cmp, s, e);
        assert e in Entries();
      }
    }

    // -------------------------------------------------------------- removing

    /** Take one stored entry out of the tree; states are brought up to date by the caller. */
    method EraseTarget(t: Entry)
      requires Structured() && t in Entries()
      modifies this`root, this`size, this`height
      ensures Structured() && Entries() == Remove(old(Entries()), t)
    {
      hide Contents, Balanced, Remove, Sorted, DistinctOrdinals;
      RemoveBookkept(cmp, Entries(), size, nextOrdinal, t);
      var r;
      ghost var h;
      r, h := EraseRoot(cmp, root.value, t, height);
      root, height := r, h;
      size := size - 1;
    }

    method FindExactEntry(range: Range, matcher: Matcher) returns (found: Option<Entry>)
      requires Structured()
      ensures var k := FirstSelected(Entries(), range, matcher);
              found == if k < |Entries()| then Some(Entries()[k]) else None
    {
      hide Structured, Entries, FirstSelected, Selects;
      var entries := Collect();
      for i := 0 to |entries|
        invariant forall j :: 0 <= j < i ==> !Selects(range, matcher, entries[j])
      {
        if Selects(range, matcher, entries[i]) {
          return Some(entries[i]);
        }
      }
      found := None;
    }

    /** Remove the first entry with exactly this range that the matcher accepts; an invalid range is refused. */
    method RemoveByRange(range: Range, matcher: Matcher) returns (removed: Option<bool>, notices: seq<Notice>)
      requires Valid() && !suppressCallbacks
      modifies this`root, this`size, this`height, this`nextOrdinal, this`states
      ensures Valid() && nextOrdinal == old(nextOrdinal)
      ensures var k := FirstSelected(old(Entries()), range, matcher);
        && removed == (if range.IsValid() then Some(k < |old(Entries())|) else None)
        && (removed == Some(true) ==> Wanted(range, matcher, old(Entries())[k]))
        && (forall j :: 0 <= j < k ==> !Wanted(range, matcher, old(Entries())[j]))
        && (removed == Some(true) ==>
              && Entries() == Remove(old(Entries()), old(Entries())[k])
              && notices == Notices(prio, Entries(), old(states), Entries()))
      ensures removed != Some(true) ==> Entries() == old(Entries()) && states == old(states) && notices == []
    {
      hide Structured, Entries, StateOf, Notices, Remove, Affected, Without, FirstSelected;
      EntriesValid();
      notices := [];
      if !range.IsValid() {
        removed := None;
        return;
      }
      var target := FindExactEntry(range, matcher);
      if target.None? {
        removed := Some(false);
        return;
      }
      ghost var s := Entries();
      var t := target.value;
      var entries := Collect();
      var oldStates := CaptureStates(entries, [t]);
      RemoveIsWithout(s, t);
      EraseTarget(t);
      removed := Some(true);
      notices := FinishRemoval(oldStates, s, [t]);
    }

    /** Bring states up to date after the entries in `ts` are gone. */
    method FinishRemoval(oldStates: seq<(Entry, OverlayState)>, ghost s: seq<Entry>, ghost ts: seq<Entry>)
      returns (notices: seq<Notice>)
      requires Structured() && !suppressCallbacks
      requires Entries() == Without(s, ts) && StatesExact(prio, s, states)
      requires Captures(Affected(Without(s, ts), ts), oldStates, states)
      modifies this`states
      ensures Valid()
      ensures notices == Notices(prio, Entries(), old(states), Entries())
    {
      hide Structured, Entries, StateOf, Notices, Affected, Without;
      ghost var affected := Affected(Entries(), ts);
      AffectedMembers(Entries(), ts);
      EntriesValid();
      notices := UpdateStatesAndNotify(oldStates, affected);
      AfterRemoval(prio, s, ts, old(states), affected, states);
      OnlyAffectedAreTold(prio, Entries(), ts, old(states), Entries());
    }

    /** Remove every entry that overlaps the range. */
    method RemoveAllOverlapping(range: Range) returns (count: Option<nat>, notices: seq<Notice>)
      requires Valid() && !suppressCallbacks
      modifies this`root, this`size, this`height, this`nextOrdinal, this`states
      ensures Valid()
      ensures count.None? <==> !range.IsValid()
      ensures count.None? ==> Entries() == old(Entries()) && notices == []
      ensures count.Some? ==>
        && Entries() == Without(old(Entries()), Overlapping(old(Entries()), range))
        && count.value == |Overlapping(old(Entries()), range)|
        && (forall e :: e in Entries() <==>
              e in old(Entries()) && !(e.range.start <= range.end && range.start <= e.range.end))
        && count.value + |Entries()| == |old(Entries())|
        && notices == Notices(prio, Entries(), old(states), Entries())
    {
      hide Structured, Entries, StateOf, Notices, Affected, Without, Overlapping;
      notices := [];
      if !range.IsValid() {
        return None, [];
      }
      EntriesValid();
      ghost var s := Entries();
      var entries := Collect();
      var targets := SelectOverlapping(entries, range);
      OverlappingMembers(s, range);
      WithoutMembers(s, targets);
      WithoutCount(s, targets, range);
      if targets == [] {
        WithoutMembers(s, []);
        NoticesOfNothing(prio, s, states);
        return Some(0), [];
      }
      var oldStates := CaptureStates(entries, targets);
      OverlappingDistinct(s, range);
      EraseAll(targets);
      notices := FinishRemoval(oldStates, s, targets);
      count := Some(|targets|);
    }

    method EraseAll(targets: seq<Entry>)
      requires Structured() && DistinctOrdinals(targets)
      requires forall t :: t in targets ==> t in Entries()
      modifies this`root, this`size, this`height
      ensures Structured() && Entries() == Without(old(Entries()), targets)
    {
      hide Structured, Entries, Without, Remove;
      ghost var s := Entries();
      WithoutMembers(s, []);
      for i := 0 to |targets|
        invariant Structured() && Entries() == Without(s, targets[..i])
      {
        EntriesValid();
        WithoutMembers(s, targets[..i]);
        assert targets[i] in targets && targets[i] !in targets[..i];
        RemoveIsWithout(Entries(), targets[i]);
        WithoutTwice(s, targets[..i], [targets[i]]);
        assert targets[..i + 1] == targets[..i] + [targets[i]];
        EraseTarget(targets[i]);
      }
      assert targets[..|targets|] == targets;
    }

    method Clear()
      requires Valid()
      modifies this
      ensures Valid() && Entries() == [] && size == 0 && nextOrdinal == 0
      ensures suppressCallbacks == old(suppressCallbacks)
    {
      root, size, nextOrdinal, height, states := None, 0, 0, 0, map[];
    }

    // -------------------------------------------------------------- snapshots

    method EnumerateCanonicalMove(dup: DuplicateOrder) returns (snapshot: seq<(Range, Payload)>)
      requires Valid()
      modifies this
      ensures Valid() && Entries() == [] && nextOrdinal == 0
      ensures snapshot == Enumerated(cmp, dup, old(Entries()))
      ensures LegalDuplicateOrder(dup) ==> IsSnapshot(cmp, dup, old(Entries()), snapshot)
    {
      hide IsSnapshot, Enumerated, LegalDuplicateOrder, Structured, Entries;
      snapshot := EnumerateCanonical(dup);
      Clear();
    }

    /** Replace the contents by a snapshot; an invalid range anywhere changes nothing. */
    method ReconstructFromCanonical(snapshot: seq<(Range, Payload)>, reconnects: Payload -> bool) returns (ok: bool)
      requires Valid() && !suppressCallbacks
      modifies this
      ensures Valid() && !suppressCallbacks
      ensures ok <==> forall p :: p in snapshot ==> p.0.IsValid()
      ensures ok ==> Entries() == Rebuilt(cmp, snapshot, reconnects, |snapshot|) && nextOrdinal == |snapshot|
      ensures ok ==> forall e :: e in Entries() <==>
        e.ordinal < |snapshot| && (e.range, e.value) == snapshot[e.ordinal] && e.hasCallback == reconnects(e.value)
      ensures !ok ==> Entries() == old(Entries()) && states == old(states)
    {
      hide Structured, Entries, Rebuilt, Insert, StatesExact, LegalComparator;
      for i := 0 to |snapshot|
        invariant Valid() && Entries() == old(Entries()) && states == old(states)
        invariant forall j :: 0 <= j < i ==> snapshot[j].0.IsValid()
      {
        if !snapshot[i].0.IsValid() {
          assert snapshot[i] in snapshot;
          return false;
        }
      }
      EntriesInFieldOrder();
      EmptyRebuilt(cmp, snapshot, reconnects);
      var rebuilt := new IntervalBTree(cmp, prio);
      rebuilt.suppressCallbacks := true;
      for i := 0 to |snapshot|
        invariant rebuilt.Valid() && rebuilt.suppressCallbacks && fresh(rebuilt)
        invariant rebuilt.cmp == cmp && rebuilt.prio == prio && rebuilt.nextOrdinal == i
        invariant rebuilt.Entries() == Rebuilt(cmp, snapshot, reconnects, i)
        invariant !suppressCallbacks
      {
        assert snapshot[i] in snapshot;
        RebuiltNext(cmp, snapshot, reconnects, i);
        var ignored := rebuilt.InsertEntry(Loaded(snapshot, reconnects, i));
      }
      rebuilt.suppressCallbacks := false;
      TakeOver(rebuilt);
      ok := true;
      RebuiltHolds(cmp, snapshot, reconnects);
    }

    /** Take the contents of a tree built aside. */
    method TakeOver(rebuilt: IntervalBTree)
      requires rebuilt.Valid() && rebuilt.cmp == cmp && rebuilt.prio == prio
      modifies this`root, this`size, this`height, this`nextOrdinal, this`states
      ensures Valid() && Entries() == old(rebuilt.Entries()) && nextOrdinal == old(rebuilt.nextOrdinal)
    {
      root, size, nextOrdinal, states := rebuilt.root, rebuilt.size, rebuilt.nextOrdinal, rebuilt.states;
      height := rebuilt.height;
    }
  }

  // ---------------------------------------------------------------- loop steps

  method SelectOverlapping(entries: seq<Entry>, range: Range) returns (targets: seq<Entry>)
    ensures targets == Overlapping(entries, range)
  {
    targets := [];
    for i := 0 to |entries|
      invariant targets == Overlapping(entries[..i], range)
    {
      assert entries[..i + 1][..i] == entries[..i];
      if entries[i].range.Overlaps(range) {
        targets := targets + [entries[i]];
      }
    }
    assert entries[..|entries|] == entries;
  }

  lemma CollectStep(prio: Priority, entries: seq<Entry>, i: nat, x: Entry)
    requires i < |entries|
    ensures Others(entries[..i + 1], x)
         == Others(entries[..i], x) + (if Relevant(x, entries[i]) then [entries[i]] else [])
    ensures !Relevant(x, entries[i]) ==> Others(entries[..i + 1], x) == Others(entries[..i], x)
    ensures Relevant(x, entries[i]) ==>
      && Ranges(Others(entries[..i + 1], x)) == Ranges(Others(entries[..i], x)) + [entries[i].range]
      && (Outranked(prio, Others(entries[..i + 1], x), x.value)
          <==> Outranked(prio, Others(entries[..i], x), x.value)
               || (prio.Some? && prio.value(entries[i].value, x.value)))
  {
    assert entries[..i + 1][..i] == entries[..i];
    hide Others;
    if Relevant(x, entries[i]) {
      assert entries[i] in Others(entries[..i + 1], x);
    }
  }

  lemma RangesOverlap(entries: seq<Entry>, x: Entry)
    ensures forall r :: r in Ranges(Others(entries, x)) ==> x.range.Overlaps(r)
  {
    OthersMembers(entries, x);
    var o := Others(entries, x);
    forall r | r in Ranges(o)
      ensures x.range.Overlaps(r)
    {
      var i :| 0 <= i < |o| && o[i].range == r;
      assert o[i] in o;
    }
  }

  lemma CaptureStep(entries: seq<Entry>, ts: seq<Entry>, i: nat)
    requires i < |entries|
    ensures Affected(Without(entries[..i + 1], ts), ts)
         == Affected(Without(entries[..i], ts), ts)
          + (if entries[i] !in ts && Touches(ts, entries[i]) then [entries[i]] else [])
  {
    assert entries[..i + 1][..i] == entries[..i];
    var w := Without(entries[..i], ts);
    if entries[i] in ts {
      assert Without(entries[..i + 1], ts) == w + [] == w;
    } else {
      assert (w + [entries[i]])[..|w|] == w && (w + [entries[i]])[|w|] == entries[i];
    }
  }

  lemma EmptyLeaf()
    ensures var n := Node([], [], INT64_MIN, true); Balanced(n, 0) && Contents(n) == []
  {
  }

  lemma NoNotices(r: seq<Notice>)
    ensures (forall n :: n !in r) ==> r == []
  {
    if r != [] {
      assert r[0] in r;
    }
  }

  lemma NoticesOfNothing(prio: Priority, s: seq<Entry>, states: map<nat, OverlayState>)
    requires StatesExact(prio, s, states)
    ensures Notices(prio, s, states, s) == []
  {
    NoticesAreExact(prio, s, states, s);
    assert forall n :: n !in Notices(prio, s, states, s);
    NoNotices(Notices(prio, s, states, s));
  }

  /** Notices only depend on the old states of the entries they are about. */
  lemma {:induction false} NoticesSame(
      prio: Priority, es: seq<Entry>, a: map<nat, OverlayState>, b: map<nat, OverlayState>, after: seq<Entry>)
    requires forall e :: e in es ==> e.ordinal in a && e.ordinal in b && a[e.ordinal] == b[e.ordinal]
    ensures Notices(prio, es, a, after) == Notices(prio, es, b, after)
  {
    if es != [] {
      hide StateOf;
      NoticesSame(prio, es[..|es| - 1], a, b, after);
    }
  }

  lemma OverlappingDistinct(s: seq<Entry>, range: Range)
    requires DistinctOrdinals(s)
    ensures DistinctOrdinals(Overlapping(s, range))
  {
    if s != [] {
      var init := s[..|s| - 1];
      OverlappingDistinct(init, range);
      OverlappingMembers(init, range);
      var o := Overlapping(init, range);
      forall i | 0 <= i < |o|
        ensures o[i].ordinal != s[|s| - 1].ordinal
      {
        assert o[i] in o;
        var k :| 0 <= k < |init| && init[k] == o[i];
        assert s[k] == init[k];
      }
    }
  }

  /** Why recomputing only the overlapped entries keeps every state exact after an insertion. */
  lemma AfterInsert(prio: Priority, cmp: Comparator, s: seq<Entry>, e: Entry, before: map<nat, OverlayState>,
                    updating: map<nat, OverlayState>, affected: seq<Entry>, after: map<nat, OverlayState>)
    requires StatesExact(prio, s, before) && DistinctOrdinals(s)
    requires forall x :: x in s ==> x.ordinal != e.ordinal
    requires updating == before[e.ordinal := StateOf(prio, Insert(cmp, s, e), e)]
    requires forall x :: x in affected <==> x in s && Touches([e], x)
    requires Updated(prio, affected, Insert(cmp, s, e), updating, after)
    ensures StatesExact(prio, Insert(cmp, s, e), after)
    ensures forall x :: x in s && !Touches([e], x) ==> !Told(prio, before, Insert(cmp, s, e), x)
  {
    hide StateOf, Insert, Touches;
    InsertMembers(cmp, s, e);
    forall x | x in s && !Touches([e], x)
      ensures StateOf(prio, Insert(cmp, s, e), x) == StateOf(prio, s, x)
      ensures after[x.ordinal] == before[x.ordinal]
    {
      Untouched([e], e, x);
      InsertIsLocal(prio, cmp, s, e, x);
      forall y | y in affected
        ensures y.ordinal != x.ordinal
      {
        if y.ordinal == x.ordinal {
          SameOrdinalSameEntry(s, x, y);
        }
      }
    }
  }

  lemma Untouched(ts: seq<Entry>, t: Entry, x: Entry)
    requires t in ts && !Touches(ts, x)
    ensures !x.range.Overlaps(t.range)
  {
  }

  /** The same after a removal. */
  lemma AfterRemoval(prio: Priority, s: seq<Entry>, ts: seq<Entry>,
                     before: map<nat, OverlayState>, affected: seq<Entry>, after: map<nat, OverlayState>)
    requires StatesExact(prio, s, before) && DistinctOrdinals(Without(s, ts))
    requires forall x :: x in affected <==> x in Without(s, ts) && Touches(ts, x)
    requires Updated(prio, affected, Without(s, ts), before, after)
    ensures StatesExact(prio, Without(s, ts), after)
    ensures forall x :: x in Without(s, ts) && !Touches(ts, x) ==> !Told(prio, before, Without(s, ts), x)
  {
    hide Geometry, Others, Without, Touches;
    WithoutMembers(s, ts);
    forall x | x in Without(s, ts) && !Touches(ts, x)
      ensures StateOf(prio, Without(s, ts), x) == StateOf(prio, s, x)
      ensures after[x.ordinal] == before[x.ordinal]
    {
      OthersWithout(s, ts, x);
      forall y | y in affected
        ensures y.ordinal != x.ordinal
      {
        if y.ordinal == x.ordinal {
          SameOrdinalSameEntry(Without(s, ts), x, y);
        }
      }
    }
  }

  // ---------------------------------------------------------------- captured states

  /** The captured pairs are the given entries with their recorded states. */
  ghost predicate Captures(es: seq<Entry>, pairs: seq<(Entry, OverlayState)>, states: map<nat, OverlayState>) {
    && |es| == |pairs|
    && forall k :: 0 <= k < |es| ==>
         pairs[k].0 == es[k] && es[k].ordinal in states && pairs[k].1 == states[es[k].ordinal]
  }

  ghost predicate Recomputed(prio: Priority, s: seq<Entry>, e: Entry, states: map<nat, OverlayState>) {
    e.ordinal in states && states[e.ordinal] == StateOf(prio, s, e)
  }

  /** The states of `es` are recomputed against `s`, and no other state is changed. */
  ghost predicate Updated(prio: Priority, es: seq<Entry>, s: seq<Entry>,
                          before: map<nat, OverlayState>, after: map<nat, OverlayState>)
  {
    && (forall o :: o in before ==> o in after)
    && (forall e :: e in es ==> Recomputed(prio, s, e, after))
    && (forall o :: o in before && (forall e :: e in es ==> e.ordinal != o) ==> after[o] == before[o])
  }

  lemma UpdateBegins(prio: Priority, es: seq<Entry>, s: seq<Entry>, states: map<nat, OverlayState>)
    ensures es[..0] == [] && Updated(prio, es[..0], s, states, states)
    ensures Notices(prio, es[..0], states, s) == []
  {
  }

  lemma UpdateStep(prio: Priority, init: seq<Entry>, x: Entry, s: seq<Entry>,
                   before: map<nat, OverlayState>, after: map<nat, OverlayState>)
    requires Updated(prio, init, s, before, after) && x.ordinal in before
    requires forall e :: e in init && e.ordinal == x.ordinal ==> e == x
    ensures Updated(prio, init + [x], s, before, after[x.ordinal := StateOf(prio, s, x)])
    ensures Notices(prio, init + [x], before, s)
         == Notices(prio, init, before, s)
          + (if Told(prio, before, s, x) then [Notice(x, before[x.ordinal], StateOf(prio, s, x))] else [])
  {
    hide StateOf;
    assert (init + [x])[..|init|] == init;
    assert x in init + [x];
  }

  lemma EmptyCapture(ts: seq<Entry>)
    ensures Affected(Without([], ts), ts) == []
  {
  }

  // ---------------------------------------------------------------- states from a list

  /** Classify and rank a candidate among the entries that overlap it. */
  method ClassifyAmong(prio: Priority, found: seq<Entry>, range: Range, value: Payload)
    returns (status: Topology, isTop: bool)
    requires range.IsValid() && forall e :: e in found ==> range.Overlaps(e.range)
    ensures OverlayState(status, isTop) == StateAmong(prio, found, range, value)
  {
    var ranges := seq(|found|, i requires 0 <= i < |found| => found[i].range);
    assert ranges == Ranges(found);
    forall r | r in ranges
      ensures range.Overlaps(r)
    {
      var i :| 0 <= i < |found| && found[i].range == r;
      assert found[i] in found;
    }
    status := ClassifyTopology(range, ranges);
    isTop := true;
    if prio.Some? {
      for i := 0 to |found|
        invariant isTop && forall j :: 0 <= j < i ==> !prio.value(found[j].value, value)
      {
        if prio.value(found[i].value, value) {
          assert found[i] in found;
          isTop := false;
          break;
        }
      }
    }
  }

  /** The state of `x` computed from scratch against a list of entries. */
  method StateAgainst(prio: Priority, entries: seq<Entry>, x: Entry) returns (st: OverlayState)
    requires x.range.IsValid()
    ensures st == StateOf(prio, entries, x)
  {
    hide Others, Outranked, Geometry, Ranges;
    var isTop := true;
    var overlaps: seq<Range> := [];
    NoOthersYet(prio, x);
    for i := 0 to |entries|
      invariant overlaps == Ranges(Others(entries[..i], x))
      invariant isTop <==> !Outranked(prio, Others(entries[..i], x), x.value)
    {
      CollectStep(prio, entries, i, x);
      if entries[i].ordinal != x.ordinal && x.range.Overlaps(entries[i].range) {
        overlaps := overlaps + [entries[i].range];
        if prio.Some? && prio.value(entries[i].value, x.value) {
          isTop := false;
        }
      }
    }
    assert entries[..|entries|] == entries;
    RangesOverlap(entries, x);
    var topology := ClassifyTopology(x.range, overlaps);
    st := OverlayState(topology, isTop);
  }

  lemma NoOthersYet(prio: Priority, x: Entry)
    ensures Ranges(Others([], x)) == [] && !Outranked(prio, Others([], x), x.value)
  {
  }
}
