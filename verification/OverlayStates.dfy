/**
 The overlay state of a stored entry, defined from scratch over the whole sequence of
 entries, and why changing one entry can only affect the entries that overlap it.
 */
module OverlayStates {
  import opened Common
  import opened Intervals
  import opened EntryOrder
  import opened IntervalQueries

  datatype OverlayState = OverlayState(topology: Topology, isTop: bool)

  type Priority = Option<(Payload, Payload) -> bool>

  datatype Notice = Notice(entry: Entry, before: OverlayState, after: OverlayState)

  // ---------------------------------------------------------------- state from scratch

  predicate Relevant(x: Entry, e: Entry) {
    e.ordinal != x.ordinal && x.range.Overlaps(e.range)
  }

  /** The other entries that overlap `x`, in order. */
  ghost function Others(s: seq<Entry>, x: Entry): (r: seq<Entry>) {
    if s == [] then []
    else Others(s[..|s| - 1], x) + (if Relevant(x, s[|s| - 1]) then [s[|s| - 1]] else [])
  }

  ghost function Ranges(s: seq<Entry>): (r: seq<Range>) {
    seq(|s|, i requires 0 <= i < |s| => s[i].range)
  }

  ghost predicate Outranked(prio: Priority, s: seq<Entry>, value: Payload) {
    prio.Some? && exists e :: e in s && prio.value(e.value, value)
  }

  ghost function StateAmong(prio: Priority, others: seq<Entry>, range: Range, value: Payload): (st: OverlayState) {
    OverlayState(Geometry(range, Ranges(others)), !Outranked(prio, others, value))
  }

  ghost function StateOf(prio: Priority, s: seq<Entry>, x: Entry): (st: OverlayState) {
    StateAmong(prio, Others(s, x), x.range, x.value)
  }

  lemma {:induction false} OthersConcat(a: seq<Entry>, b: seq<Entry>, x: Entry)
    ensures Others(a + b, x) == Others(a, x) + Others(b, x)
  {
    if b == [] {
      assert a + b == a;
    } else {
      OthersConcat(a, b[..|b| - 1], x);
      assert (a + b)[..|a + b| - 1] == a + b[..|b| - 1];
    }
  }

  lemma OthersOne(e: Entry, x: Entry)
    ensures Others([e], x) == if Relevant(x, e) then [e] else []
  {
    assert [e][..0] == [];
  }

  lemma {:induction false} OthersMembers(s: seq<Entry>, x: Entry)
    ensures forall e :: e in Others(s, x) <==> e in s && Relevant(x, e)
  {
    if s != [] {
      OthersMembers(s[..|s| - 1], x);
      assert s == s[..|s| - 1] + [s[|s| - 1]];
    }
  }

  // ---------------------------------------------------------------- states on fields

  /** Another entry than the one with this ordinal reaches over point `p`. */
  ghost predicate CoveredByOther(s: seq<Entry>, ordinal: nat, p: int) {
    exists e :: e in s && e.ordinal != ordinal && e.range.start <= p <= e.range.end
  }

  /** What a topology says of the points of a range, given which of them other entries cover. */
  ghost predicate TopologyMeans(t: Topology, range: Range, s: seq<Entry>, ordinal: nat) {
    var all := forall p :: range.start <= p <= range.end ==> CoveredByOther(s, ordinal, p);
    var any := exists p :: range.start <= p <= range.end && CoveredByOther(s, ordinal, p);
    var left, right := CoveredByOther(s, ordinal, range.start), CoveredByOther(s, ordinal, range.end);
    && (t == Clear <==> !any)
    && (t == FullyCovered <==> all)
    && (t == OverlaidBoth <==> !all && left && right)
    && (t == OverlaidLeft <==> left && !right)
    && (t == OverlaidRight <==> !left && right)
    && (t == CoveringExisting <==> any && !left && !right)
  }

  predicate SharePoint(a: Range, b: Range) {
    a.start <= b.end && b.start <= a.end
  }

  /** The classification of a range says what it should of its points. */
  lemma GeometryMeans(range: Range, overlaps: seq<Range>, s: seq<Entry>, ordinal: nat)
    requires range.start <= range.end
    requires forall r :: r in overlaps ==> r.start <= r.end && SharePoint(r, range)
    requires forall p :: range.start <= p <= range.end ==>
      (CoveredByOther(s, ordinal, p) <==> exists r :: r in overlaps && r.start <= p <= r.end)
    ensures TopologyMeans(Geometry(range, overlaps), range, s, ordinal)
  {
    assert forall p :: range.Contains(p) ==> (Covered(overlaps, p) <==> CoveredByOther(s, ordinal, p));
    assert range.Contains(range.start) && range.Contains(range.end);
    if overlaps != [] {
      var r := overlaps[0];
      assert r in overlaps;
      var p := Max(r.start, range.start);
      assert r.start <= p <= r.end && range.start <= p <= range.end;
      assert CoveredByOther(s, ordinal, p);
    }
  }

  /**
   The state of a valid entry among valid entries: its topology tells which of its points other
   entries cover, and it is on top unless another entry that shares a point has a higher priority.
   */
  lemma StateOnFields(prio: Priority, s: seq<Entry>, x: Entry)
    requires x.range.start <= x.range.end && forall e :: e in s ==> e.range.start <= e.range.end
    ensures TopologyMeans(StateOf(prio, s, x).topology, x.range, s, x.ordinal)
    ensures StateOf(prio, s, x).isTop <==>
      !exists e :: e in s && e.ordinal != x.ordinal && prio.Some? && prio.value(e.value, x.value)
        && e.range.start <= x.range.end && x.range.start <= e.range.end
  {
    hide Others, Geometry, TopologyMeans;
    OthersMembers(s, x);
    RangesShare(s, x);
    GeometryMeans(x.range, Ranges(Others(s, x)), s, x.ordinal);
    StateParts(prio, Others(s, x), x.range, x.value);
  }

  lemma RangesShare(s: seq<Entry>, x: Entry)
    requires x.range.start <= x.range.end && forall e :: e in s ==> e.range.start <= e.range.end
    ensures forall r :: r in Ranges(Others(s, x)) ==> r.start <= r.end && SharePoint(r, x.range)
    ensures forall p :: x.range.start <= p <= x.range.end ==>
      (CoveredByOther(s, x.ordinal, p) <==> exists r :: r in Ranges(Others(s, x)) && r.start <= p <= r.end)
  {
    hide Others;
    OthersMembers(s, x);
    var o := Others(s, x);
    var rs := Ranges(o);
    forall r | r in rs ensures r.start <= r.end && SharePoint(r, x.range) {
      var i :| 0 <= i < |o| && o[i].range == r;
      assert o[i] in o;
    }
    forall p | x.range.start <= p <= x.range.end
      ensures CoveredByOther(s, x.ordinal, p) <==> exists r :: r in rs && r.start <= p <= r.end
    {
      if CoveredByOther(s, x.ordinal, p) {
        var e :| e in s && e.ordinal != x.ordinal && e.range.start <= p <= e.range.end;
        assert e in o;
        var i :| 0 <= i < |o| && o[i] == e;
        assert rs[i] == e.range;
      }
      if r :| r in rs && r.start <= p <= r.end {
        var i :| 0 <= i < |o| && o[i].range == r;
        assert o[i] in o;
      }
    }
  }

  lemma StateParts(prio: Priority, others: seq<Entry>, range: Range, value: Payload)
    ensures StateAmong(prio, others, range, value).topology == Geometry(range, Ranges(others))
    ensures StateAmong(prio, others, range, value).isTop <==>
      !exists e :: e in others && prio.Some? && prio.value(e.value, value)
  {
    hide Geometry;
  }

  // ---------------------------------------------------------------- locality

  lemma {:induction false} InsertSplits(cmp: Comparator, s: seq<Entry>, e: Entry) returns (k: nat)
    ensures k <= |s| && Insert(cmp, s, e) == s[..k] + [e] + s[k..]
  {
    if s == [] || EntryLess(cmp, e, s[0]) {
      k := 0;
    } else {
      var j := InsertSplits(cmp, s[1..], e);
      k := j + 1;
      assert s[..k] == [s[0]] + s[1..][..j];
      assert s[1..][j..] == s[k..];
    }
  }

  lemma {:induction false} RemoveSplits(s: seq<Entry>, t: Entry) returns (k: nat)
    requires t in s
    ensures k < |s| && s[k] == t && Remove(s, t) == s[..k] + s[k + 1..]
  {
    if s[0] == t {
      k := 0;
    } else {
      var j := RemoveSplits(s[1..], t);
      k := j + 1;
      assert s[..k] == [s[0]] + s[1..][..j];
      assert s[1..][j + 1..] == s[k + 1..];
    }
  }

  lemma OthersAround(l: seq<Entry>, e: Entry, r: seq<Entry>, x: Entry)
    ensures Others(l + [e] + r, x) == Others(l, x) + (if Relevant(x, e) then [e] else []) + Others(r, x)
    ensures Others(l + r, x) == Others(l, x) + Others(r, x)
  {
    hide Others;
    OthersConcat(l + [e], r, x);
    OthersConcat(l, [e], x);
    OthersConcat(l, r, x);
    OthersOne(e, x);
  }

  /** Adding `e` leaves the state of every entry that does not overlap it. */
  lemma InsertIsLocal(prio: Priority, cmp: Comparator, s: seq<Entry>, e: Entry, x: Entry)
    requires !x.range.Overlaps(e.range)
    ensures StateOf(prio, Insert(cmp, s, e), x) == StateOf(prio, s, x)
  {
    hide Others, Insert, Remove, Geometry;
    var k := InsertSplits(cmp, s, e);
    OthersAround(s[..k], e, s[k..], x);
    assert s == s[..k] + s[k..];
    assert Others(Insert(cmp, s, e), x) == Others(s, x);
  }

  /** The entries that are not among `ts`. */
  ghost function Without(s: seq<Entry>, ts: seq<Entry>): (r: seq<Entry>) {
    if s == [] then []
    else Without(s[..|s| - 1], ts) + (if s[|s| - 1] in ts then [] else [s[|s| - 1]])
  }

  lemma {:induction false} WithoutMembers(s: seq<Entry>, ts: seq<Entry>)
    ensures forall x :: x in Without(s, ts) <==> x in s && x !in ts
    ensures (forall t :: t in ts ==> t !in s) ==> Without(s, ts) == s
  {
    if s != [] {
      WithoutMembers(s[..|s| - 1], ts);
      assert s == s[..|s| - 1] + [s[|s| - 1]];
    }
  }

  /** What is filtered out and what is left add up. */
  lemma {:induction false} WithoutCount(s: seq<Entry>, ts: seq<Entry>, range: Range)
    requires forall e :: e in s ==> (e in ts <==> e.range.Overlaps(range))
    ensures |Without(s, ts)| + |Overlapping(s, range)| == |s|
  {
    if s != [] {
      WithoutCount(s[..|s| - 1], ts, range);
      assert s[|s| - 1] in s;
    }
  }

  lemma {:induction false} WithoutConcat(a: seq<Entry>, b: seq<Entry>, ts: seq<Entry>)
    ensures Without(a + b, ts) == Without(a, ts) + Without(b, ts)
  {
    if b == [] {
      assert a + b == a;
    } else {
      WithoutConcat(a, b[..|b| - 1], ts);
      assert (a + b)[..|a + b| - 1] == a + b[..|b| - 1];
    }
  }

  lemma {:induction false} WithoutTwice(s: seq<Entry>, a: seq<Entry>, b: seq<Entry>)
    ensures Without(Without(s, a), b) == Without(s, a + b)
  {
    if s != [] {
      var init, x := s[..|s| - 1], s[|s| - 1];
      WithoutTwice(init, a, b);
      var w := Without(init, a);
      if x in a {
        assert Without(s, a) == w + [] == w;
      } else {
        assert (w + [x])[..|w|] == w && (w + [x])[|w|] == x;
      }
    }
  }

  /** Erasing the one stored `t` is filtering it out. */
  lemma RemoveIsWithout(s: seq<Entry>, t: Entry)
    requires DistinctOrdinals(s) && t in s
    ensures Remove(s, t) == Without(s, [t])
  {
    hide Remove, Without;
    var k := RemoveSplits(s, t);
    var a, b := s[..k], s[k + 1..];
    assert s == a + [t] + b;
    WithoutConcat(a + [t], b, [t]);
    WithoutConcat(a, [t], [t]);
    WithoutMembers(a, [t]);
    WithoutMembers(b, [t]);
    WithoutMembers([t], [t]);
    assert t !in a && t !in b;
    NoMembers(Without([t], [t]));
    assert Remove(s, t) == a + b == a + [] + b;
  }

  /** Erasing entries leaves the state of every entry that overlaps none of them. */
  lemma {:induction false} OthersWithout(s: seq<Entry>, ts: seq<Entry>, x: Entry)
    requires !Touches(ts, x)
    ensures Others(Without(s, ts), x) == Others(s, x)
  {
    if s != [] {
      var init, y := s[..|s| - 1], s[|s| - 1];
      OthersWithout(init, ts, x);
      var w := Without(init, ts);
      if y in ts {
        assert !Relevant(x, y);
        assert Without(s, ts) == w + [] == w;
        assert Others(s, x) == Others(init, x) + [];
      } else {
        assert (w + [y])[..|w|] == w && (w + [y])[|w|] == y;
      }
    }
  }

  lemma {:induction false} OthersAreOverlapping(s: seq<Entry>, x: Entry)
    requires forall e :: e in s ==> e.ordinal != x.ordinal
    ensures Others(s, x) == Overlapping(s, x.range)
  {
    if s != [] {
      OthersAreOverlapping(s[..|s| - 1], x);
      assert x.range.Overlaps(s[|s| - 1].range) <==> s[|s| - 1].range.Overlaps(x.range);
    }
  }

  /** The state stored for a new entry is the one a query before the insertion computes. */
  lemma NewEntryState(prio: Priority, cmp: Comparator, s: seq<Entry>, e: Entry)
    requires forall x :: x in s ==> x.ordinal != e.ordinal
    ensures StateOf(prio, Insert(cmp, s, e), e) == StateAmong(prio, Overlapping(s, e.range), e.range, e.value)
  {
    hide Others, Insert, Overlapping, Geometry;
    var k := InsertSplits(cmp, s, e);
    OthersAround(s[..k], e, s[k..], e);
    assert s == s[..k] + s[k..];
    OthersAreOverlapping(s, e);
    assert Others(Insert(cmp, s, e), e) == Others(s, e);
  }

  /** What a query says of a range that is not stored. */
  lemma QueryOnFields(prio: Priority, s: seq<Entry>, range: Range, value: Payload, unused: nat)
    requires range.start <= range.end && forall e :: e in s ==> e.range.start <= e.range.end && e.ordinal != unused
    ensures var st := StateAmong(prio, Overlapping(s, range), range, value);
      && TopologyMeans(st.topology, range, s, unused)
      && (st.isTop <==>
            !exists e :: e in s && prio.Some? && prio.value(e.value, value)
              && e.range.start <= range.end && range.start <= e.range.end)
  {
    hide Others, Overlapping, Geometry, TopologyMeans;
    var x := Entry(range, value, unused, false);
    OthersAreOverlapping(s, x);
    StateOnFields(prio, s, x);
  }

  // ---------------------------------------------------------------- affected entries

  predicate Touches(ts: seq<Entry>, x: Entry) {
    exists t :: t in ts && x.range.Overlaps(t.range)
  }

  ghost function Affected(s: seq<Entry>, ts: seq<Entry>): (r: seq<Entry>) {
    if s == [] then []
    else Affected(s[..|s| - 1], ts) + (if Touches(ts, s[|s| - 1]) then [s[|s| - 1]] else [])
  }

  lemma {:induction false} AffectedMembers(s: seq<Entry>, ts: seq<Entry>)
    ensures forall x :: x in Affected(s, ts) <==> x in s && Touches(ts, x)
  {
    if s != [] {
      AffectedMembers(s[..|s| - 1], ts);
      assert s == s[..|s| - 1] + [s[|s| - 1]];
    }
  }

  // ---------------------------------------------------------------- notifications

  /** An entry is told when its state is no longer the one recorded before. */
  ghost predicate Told(prio: Priority, before: map<nat, OverlayState>, after: seq<Entry>, e: Entry) {
    e.ordinal in before && before[e.ordinal] != StateOf(prio, after, e) && e.hasCallback
  }

  ghost function Notices(prio: Priority, es: seq<Entry>, before: map<nat, OverlayState>, after: seq<Entry>)
    : (r: seq<Notice>)
  {
    if es == [] then []
    else
      var e := es[|es| - 1];
      Notices(prio, es[..|es| - 1], before, after)
      + (if Told(prio, before, after, e) then [Notice(e, before[e.ordinal], StateOf(prio, after, e))] else [])
  }

  ghost predicate DistinctOrdinals(s: seq<Entry>) {
    forall i, j :: 0 <= i < j < |s| ==> s[i].ordinal != s[j].ordinal
  }

  /** Exactly the entries whose state changed are notified, with the right states. */
  lemma {:induction false} NoticesAreExact(
    prio: Priority, es: seq<Entry>, before: map<nat, OverlayState>, after: seq<Entry>)
    ensures forall n :: n in Notices(prio, es, before, after) ==>
      n.entry in es && Told(prio, before, after, n.entry)
      && n.before == before[n.entry.ordinal] && n.after == StateOf(prio, after, n.entry)
    ensures forall e :: e in es && Told(prio, before, after, e) ==>
      Notice(e, before[e.ordinal], StateOf(prio, after, e)) in Notices(prio, es, before, after)
  {
    if es != [] {
      hide StateOf;
      NoticesAreExact(prio, es[..|es| - 1], before, after);
      assert es == es[..|es| - 1] + [es[|es| - 1]];
    }
  }

  /**
   Who is told, on fields: an entry of `es` with a callback and a recorded state, exactly when
   that state is not the one a recomputation over `after` gives; it is told both.
   */
  lemma NoticesOnFields(prio: Priority, es: seq<Entry>, before: map<nat, OverlayState>, after: seq<Entry>, n: Notice)
    ensures n in Notices(prio, es, before, after) <==>
      && n.entry in es && n.entry.hasCallback && n.entry.ordinal in before
      && n.before == before[n.entry.ordinal] && n.after == StateOf(prio, after, n.entry) && n.before != n.after
  {
    hide StateOf, Notices;
    NoticesAreExact(prio, es, before, after);
    assert n == Notice(n.entry, n.before, n.after);
  }

  /** No entry is notified twice. */
  lemma {:induction false} NoticesAreOnce(
    prio: Priority, es: seq<Entry>, before: map<nat, OverlayState>, after: seq<Entry>)
    requires DistinctOrdinals(es)
    ensures forall i, j :: 0 <= i < j < |Notices(prio, es, before, after)| ==>
      Notices(prio, es, before, after)[i].entry.ordinal != Notices(prio, es, before, after)[j].entry.ordinal
  {
    if es != [] {
      hide StateOf;
      var init := es[..|es| - 1];
      NoticesAreOnce(prio, init, before, after);
      NoticesAreExact(prio, init, before, after);
      var r := Notices(prio, init, before, after);
      forall i | 0 <= i < |r|
        ensures r[i].entry.ordinal != es[|es| - 1].ordinal
      {
        assert r[i] in r;
        var k :| 0 <= k < |init| && init[k] == r[i].entry;
        assert es[k] == init[k];
      }
    }
  }

  /** Entries left untouched need not be visited to find out whom to notify. */
  lemma {:induction false} OnlyAffectedAreTold(
      prio: Priority, s: seq<Entry>, ts: seq<Entry>, before: map<nat, OverlayState>, after: seq<Entry>)
    requires forall x :: x in s && !Touches(ts, x) ==> !Told(prio, before, after, x)
    ensures Notices(prio, s, before, after) == Notices(prio, Affected(s, ts), before, after)
  {
    if s != [] {
      hide StateOf, Told, Touches;
      var init, x := s[..|s| - 1], s[|s| - 1];
      OnlyAffectedAreTold(prio, init, ts, before, after);
      var a := Affected(init, ts);
      if Touches(ts, x) {
        assert Affected(s, ts) == a + [x];
        assert (a + [x])[..|a|] == a && (a + [x])[|a|] == x;
      } else {
        assert Affected(s, ts) == a + [] == a;
        assert x in s && !Told(prio, before, after, x);
        assert Notices(prio, s, before, after) == Notices(prio, init, before, after) + [];
      }
    }
  }

  // ---------------------------------------------------------------- the store invariant

  /** Order, identity and bookkeeping of the stored entries. */
  ghost predicate Bookkept(cmp: Comparator, s: seq<Entry>, size: nat, nextOrdinal: nat) {
    && LegalComparator(cmp)
    && Sorted(cmp, s)
    && DistinctOrdinals(s)
    && |s| == size
    && forall e :: e in s ==> e.ordinal < nextOrdinal && e.range.IsValid()
  }

  /** Every recorded state is what a recomputation from scratch would give. */
  ghost predicate StatesExact(prio: Priority, s: seq<Entry>, states: map<nat, OverlayState>) {
    forall e :: e in s ==> e.ordinal in states && states[e.ordinal] == StateOf(prio, s, e)
  }

  lemma InsertBookkept(cmp: Comparator, s: seq<Entry>, size: nat, nextOrdinal: nat, e: Entry)
    requires Bookkept(cmp, s, size, nextOrdinal)
    requires e.ordinal == nextOrdinal && e.range.IsValid()
    ensures forall x :: x in s ==> x.ordinal != e.ordinal
    ensures Bookkept(cmp, Insert(cmp, s, e), size + 1, nextOrdinal + 1)
    ensures forall x :: x in Insert(cmp, s, e) <==> x in s || x == e
  {
    InsertKeepsSorted(cmp, s, e);
    InsertMembers(cmp, s, e);
    var k := InsertSplits(cmp, s, e);
    hide Insert, Sorted;
    DistinctWith(s, k, e);
  }

  lemma DistinctWith(s: seq<Entry>, k: nat, e: Entry)
    requires DistinctOrdinals(s) && k <= |s|
    requires forall x :: x in s ==> x.ordinal != e.ordinal
    ensures DistinctOrdinals(s[..k] + [e] + s[k..])
  {
    var r := s[..k] + [e] + s[k..];
    forall i, j | 0 <= i < j < |r|
      ensures r[i].ordinal != r[j].ordinal
    {
      assert i != k ==> r[i] == s[if i < k then i else i - 1];
      assert j != k ==> r[j] == s[if j < k then j else j - 1];
    }
  }

  lemma DistinctWithout(s: seq<Entry>, k: nat)
    requires DistinctOrdinals(s) && k < |s|
    ensures DistinctOrdinals(s[..k] + s[k + 1..])
  {
    var r := s[..k] + s[k + 1..];
    forall i, j | 0 <= i < j < |r|
      ensures r[i].ordinal != r[j].ordinal
    {
      assert r[i] == s[if i < k then i else i + 1];
      assert r[j] == s[if j < k then j else j + 1];
    }
  }

  lemma RemoveBookkept(cmp: Comparator, s: seq<Entry>, size: nat, nextOrdinal: nat, t: Entry)
    requires Bookkept(cmp, s, size, nextOrdinal) && t in s
    ensures Bookkept(cmp, Remove(s, t), size - 1, nextOrdinal)
    ensures forall x :: x in Remove(s, t) <==> x in s && x != t
  {
    RemoveKeepsSorted(cmp, s, t);
    var k := RemoveSplits(s, t);
    hide Remove, Sorted;
    DistinctWithout(s, k);
  }

  lemma SameOrdinalSameEntry(s: seq<Entry>, a: Entry, b: Entry)
    requires DistinctOrdinals(s) && a in s && b in s && a.ordinal == b.ordinal
    ensures a == b
  {
  }
}
