/**
 Canonical enumeration: a stable sort of the in-order entries in which a caller may order
 entries of equal range by payload; and reconstruction of a tree from such a snapshot.
 */
module CanonicalOrder {
  import opened Common
  import opened Intervals
  import opened EntryOrder

  type DuplicateOrder = Option<(Payload, Payload) -> bool>

  ghost predicate LegalDuplicateOrder(dup: DuplicateOrder) {
    dup.Some? ==> StrictWeakOrder(dup.value)
  }

  predicate CanonicalLess(cmp: Comparator, dup: DuplicateOrder, a: Entry, b: Entry) {
    if a.range == b.range then
      (if dup.Some? then dup.value(a.value, b.value) else a.ordinal < b.ordinal)
    else EntryLess(cmp, a, b)
  }

  lemma CanonicalLessIsWeakOrder(cmp: Comparator, dup: DuplicateOrder, a: Entry, b: Entry, c: Entry)
    requires LegalComparator(cmp) && LegalDuplicateOrder(dup)
    ensures CanonicalLess(cmp, dup, a, c) ==> CanonicalLess(cmp, dup, a, b) || CanonicalLess(cmp, dup, b, c)
    ensures CanonicalLess(cmp, dup, a, b) ==> !CanonicalLess(cmp, dup, b, a)
  {
    RangeOrder(cmp, a.range, b.range, c.range);
    RangeOrder(cmp, b.range, a.range, c.range);
    RangeOrder(cmp, a.range, c.range, b.range);
    RangeOrder(cmp, a.range, b.range, a.range);
  }

  // ---------------------------------------------------------------- stable sorting

  ghost predicate InOrder(cmp: Comparator, dup: DuplicateOrder, s: seq<Entry>) {
    forall i, j :: 0 <= i < j < |s| ==> !CanonicalLess(cmp, dup, s[j], s[i])
  }

  /** The end position of the run of elements that must come after `e`. */
  function SlotFor(cmp: Comparator, dup: DuplicateOrder, s: seq<Entry>, e: Entry): (k: nat)
    ensures k <= |s|
    ensures k > 0 ==> !CanonicalLess(cmp, dup, e, s[k - 1])
    ensures forall j :: k <= j < |s| ==> CanonicalLess(cmp, dup, e, s[j])
  {
    if s == [] || !CanonicalLess(cmp, dup, e, s[|s| - 1]) then |s|
    else SlotFor(cmp, dup, s[..|s| - 1], e)
  }

  /** A stable sort, element by element; any stable sort returns the same sequence. */
  function StableSort(cmp: Comparator, dup: DuplicateOrder, s: seq<Entry>): (r: seq<Entry>) {
    if s == [] then []
    else
      var sorted := StableSort(cmp, dup, s[..|s| - 1]);
      var k := SlotFor(cmp, dup, sorted, s[|s| - 1]);
      sorted[..k] + [s[|s| - 1]] + sorted[k..]
  }

  lemma SlotKeepsOrder(cmp: Comparator, dup: DuplicateOrder, s: seq<Entry>, e: Entry, k: nat)
    requires LegalComparator(cmp) && LegalDuplicateOrder(dup)
    requires InOrder(cmp, dup, s) && k <= |s|
    requires k > 0 ==> !CanonicalLess(cmp, dup, e, s[k - 1])
    requires forall j :: k <= j < |s| ==> CanonicalLess(cmp, dup, e, s[j])
    ensures InOrder(cmp, dup, s[..k] + [e] + s[k..])
  {
    hide CanonicalLess;
    var r := s[..k] + [e] + s[k..];
    forall j | 0 <= j < k
      ensures !CanonicalLess(cmp, dup, e, s[j])
    {
      CanonicalLessIsWeakOrder(cmp, dup, e, s[k - 1], s[j]);
    }
    forall j | k <= j < |s|
      ensures !CanonicalLess(cmp, dup, s[j], e)
    {
      CanonicalLessIsWeakOrder(cmp, dup, e, s[j], e);
    }
    forall i, j | 0 <= i < j < |r|
      ensures !CanonicalLess(cmp, dup, r[j], r[i])
    {
      assert i != k ==> r[i] == s[if i < k then i else i - 1];
      assert j != k ==> r[j] == s[if j < k then j else j - 1];
    }
  }

  lemma {:induction false} StableSortIsSorted(cmp: Comparator, dup: DuplicateOrder, s: seq<Entry>)
    requires LegalComparator(cmp) && LegalDuplicateOrder(dup)
    ensures InOrder(cmp, dup, StableSort(cmp, dup, s))
    ensures multiset(StableSort(cmp, dup, s)) == multiset(s)
  {
    hide CanonicalLess, InOrder, LegalComparator, LegalDuplicateOrder;
    if s == [] {
      NothingToOrder(cmp, dup);
    } else {
      var init, e := s[..|s| - 1], s[|s| - 1];
      StableSortIsSorted(cmp, dup, init);
      var sorted := StableSort(cmp, dup, init);
      var k := SlotFor(cmp, dup, sorted, e);
      SlotKeepsOrder(cmp, dup, sorted, e, k);
      SpliceMultiset(sorted, k, e);
      LastMultiset(s);
    }
  }

  lemma NothingToOrder(cmp: Comparator, dup: DuplicateOrder)
    ensures InOrder(cmp, dup, [])
  {
  }

  lemma LastMultiset(s: seq<Entry>)
    requires s != []
    ensures multiset(s) == multiset(s[..|s| - 1]) + multiset{s[|s| - 1]}
  {
    assert s == s[..|s| - 1] + [s[|s| - 1]];
  }

  lemma SpliceMultiset(s: seq<Entry>, k: nat, e: Entry)
    requires k <= |s|
    ensures multiset(s[..k] + [e] + s[k..]) == multiset(s) + multiset{e}
  {
    assert s == s[..k] + s[k..];
  }

  /**
   The canonical order on fields: the order of the tree on different ranges; entries of one range as
   the evaluator has it, and where it has no opinion in the order in which they were added.
   */
  ghost predicate SnapshotOrder(cmp: Comparator, dup: DuplicateOrder, t: seq<Entry>) {
    forall i, j :: 0 <= i < j < |t| ==>
      && (t[i].range != t[j].range ==> RangesInOrder(cmp, t[i].range, t[j].range))
      && (t[i].range == t[j].range ==> DuplicatesInOrder(dup, t[i], t[j]))
  }

  predicate DuplicatesInOrder(dup: DuplicateOrder, a: Entry, b: Entry) {
    && (dup.None? ==> a.ordinal < b.ordinal)
    && (dup.Some? ==> !dup.value(b.value, a.value) && (dup.value(a.value, b.value) || a.ordinal < b.ordinal))
  }

  /** Where the new element goes, it stands in order with everything. */
  lemma SlotOnFields(cmp: Comparator, dup: DuplicateOrder, sorted: seq<Entry>, k: nat, e: Entry)
    requires LegalComparator(cmp) && LegalDuplicateOrder(dup) && k <= |sorted|
    requires SnapshotOrder(cmp, dup, sorted) && InOrder(cmp, dup, sorted[..k] + [e] + sorted[k..])
    requires forall j :: k <= j < |sorted| ==> CanonicalLess(cmp, dup, e, sorted[j])
    requires forall x :: x in sorted && x.range == e.range ==> x.ordinal < e.ordinal
    ensures SnapshotOrder(cmp, dup, sorted[..k] + [e] + sorted[k..])
  {
    hide RangesInOrder, DuplicatesInOrder;
    var r := sorted[..k] + [e] + sorted[k..];
    forall i, j | 0 <= i < j < |r|
      ensures r[i].range != r[j].range ==> RangesInOrder(cmp, r[i].range, r[j].range)
      ensures r[i].range == r[j].range ==> DuplicatesInOrder(dup, r[i], r[j])
    {
      assert !CanonicalLess(cmp, dup, r[j], r[i]);
      assert i != k ==> r[i] == sorted[if i < k then i else i - 1];
      assert j != k ==> r[j] == sorted[if j < k then j else j - 1];
      if i == k || j == k {
        PairOnFields(cmp, dup, r[i], r[j]);
      }
    }
  }

  lemma PairOnFields(cmp: Comparator, dup: DuplicateOrder, a: Entry, b: Entry)
    requires LegalComparator(cmp) && LegalDuplicateOrder(dup) && !CanonicalLess(cmp, dup, b, a)
    requires a.range == b.range ==> a.ordinal < b.ordinal || CanonicalLess(cmp, dup, a, b)
    ensures a.range != b.range ==> RangesInOrder(cmp, a.range, b.range)
    ensures a.range == b.range ==> DuplicatesInOrder(dup, a, b)
  {
  }

  /** A snapshot holds the stored entries, in canonical order. */
  lemma {:induction false} SnapshotOnFields(cmp: Comparator, dup: DuplicateOrder, s: seq<Entry>)
    requires LegalComparator(cmp) && LegalDuplicateOrder(dup) && InFieldOrder(cmp, s)
    ensures SnapshotOrder(cmp, dup, StableSort(cmp, dup, s))
    ensures multiset(StableSort(cmp, dup, s)) == multiset(s)
  {
    StableSortIsSorted(cmp, dup, s);
    if s != [] {
      hide CanonicalLess, SnapshotOrder, InOrder, LegalComparator, LegalDuplicateOrder, InFieldOrder;
      var init, e := s[..|s| - 1], s[|s| - 1];
      StableSortIsSorted(cmp, dup, init);
      var sorted := StableSort(cmp, dup, init);
      EarlierOfRange(cmp, s, sorted);
      SnapshotOnFields(cmp, dup, init);
      SlotOnFields(cmp, dup, sorted, SlotFor(cmp, dup, sorted, e), e);
    } else {
      hide SnapshotOrder;
      EmptySnapshot(cmp, dup);
    }
  }

  lemma EarlierOfRange(cmp: Comparator, s: seq<Entry>, sorted: seq<Entry>)
    requires s != [] && InFieldOrder(cmp, s) && multiset(sorted) == multiset(s[..|s| - 1])
    ensures InFieldOrder(cmp, s[..|s| - 1])
    ensures forall x :: x in sorted && x.range == s[|s| - 1].range ==> x.ordinal < s[|s| - 1].ordinal
  {
    hide RangesInOrder;
    var init := s[..|s| - 1];
    forall x | x in sorted ensures exists i :: 0 <= i < |init| && s[i] == x {
      assert x in multiset(sorted);
      assert x in init;
    }
  }

  lemma EmptySnapshot(cmp: Comparator, dup: DuplicateOrder)
    ensures SnapshotOrder(cmp, dup, StableSort(cmp, dup, []))
  {
  }

  /** The elements that the order does not tell apart from `e`, as they come. */
  ghost function Ties(cmp: Comparator, dup: DuplicateOrder, s: seq<Entry>, e: Entry): (r: seq<Entry>) {
    if s == [] then []
    else
      var x := s[|s| - 1];
      Ties(cmp, dup, s[..|s| - 1], e)
        + (if !CanonicalLess(cmp, dup, x, e) && !CanonicalLess(cmp, dup, e, x) then [x] else [])
  }

  lemma {:induction false} TiesConcat(cmp: Comparator, dup: DuplicateOrder, a: seq<Entry>, b: seq<Entry>, e: Entry)
    ensures Ties(cmp, dup, a + b, e) == Ties(cmp, dup, a, e) + Ties(cmp, dup, b, e)
  {
    hide CanonicalLess;
    if b == [] {
      assert a + b == a;
    } else {
      TiesConcat(cmp, dup, a, b[..|b| - 1], e);
      assert (a + b)[..|a + b| - 1] == a + b[..|b| - 1];
    }
  }

  /** What comes behind `x`'s slot is not tied with anything that `x` is tied with. */
  lemma {:induction false} NoTiesBehind(cmp: Comparator, dup: DuplicateOrder, s: seq<Entry>, x: Entry, e: Entry)
    requires LegalComparator(cmp) && LegalDuplicateOrder(dup)
    requires forall j :: 0 <= j < |s| ==> CanonicalLess(cmp, dup, x, s[j])
    requires !CanonicalLess(cmp, dup, x, e)
    ensures Ties(cmp, dup, s, e) == []
  {
    hide CanonicalLess, LegalComparator, LegalDuplicateOrder;
    if s != [] {
      NoTiesBehind(cmp, dup, s[..|s| - 1], x, e);
      CanonicalLessIsWeakOrder(cmp, dup, x, e, s[|s| - 1]);
    }
  }

  lemma SlotKeepsTies(cmp: Comparator, dup: DuplicateOrder, sorted: seq<Entry>, k: nat, x: Entry, e: Entry)
    requires LegalComparator(cmp) && LegalDuplicateOrder(dup) && k <= |sorted|
    requires forall j :: k <= j < |sorted| ==> CanonicalLess(cmp, dup, x, sorted[j])
    ensures Ties(cmp, dup, sorted[..k] + [x] + sorted[k..], e) == Ties(cmp, dup, sorted, e) + Ties(cmp, dup, [x], e)
  {
    hide CanonicalLess, LegalComparator, LegalDuplicateOrder, Ties;
    var l, r := sorted[..k], sorted[k..];
    assert sorted == l + r;
    TiesConcat(cmp, dup, l, r, e);
    TiesConcat(cmp, dup, l + [x], r, e);
    TiesConcat(cmp, dup, l, [x], e);
    if Ties(cmp, dup, [x], e) != [] {
      OneTie(cmp, dup, x, e);
      NoTiesBehind(cmp, dup, r, x, e);
    }
  }

  /** The sort is stable: elements that the order does not tell apart keep their order. */
  lemma {:induction false} StableSortIsStable(cmp: Comparator, dup: DuplicateOrder, s: seq<Entry>, e: Entry)
    requires LegalComparator(cmp) && LegalDuplicateOrder(dup)
    ensures Ties(cmp, dup, StableSort(cmp, dup, s), e) == Ties(cmp, dup, s, e)
  {
    if s != [] {
      hide CanonicalLess, LegalComparator, LegalDuplicateOrder, Ties, StableSort, SlotFor;
      var init, x := s[..|s| - 1], s[|s| - 1];
      assert s == init + [x];
      StableSortIsStable(cmp, dup, init, e);
      TiesConcat(cmp, dup, init, [x], e);
      var sorted := StableSort(cmp, dup, init);
      var k := StableSortLast(cmp, dup, s);
      SlotKeepsTies(cmp, dup, sorted, k, x, e);
    }
  }

  lemma StableSortLast(cmp: Comparator, dup: DuplicateOrder, s: seq<Entry>) returns (k: nat)
    requires s != []
    ensures var sorted := StableSort(cmp, dup, s[..|s| - 1]);
      && k <= |sorted| && StableSort(cmp, dup, s) == sorted[..k] + [s[|s| - 1]] + sorted[k..]
      && forall j :: k <= j < |sorted| ==> CanonicalLess(cmp, dup, s[|s| - 1], sorted[j])
  {
    hide CanonicalLess, SlotFor;
    k := SlotFor(cmp, dup, StableSort(cmp, dup, s[..|s| - 1]), s[|s| - 1]);
  }

  lemma OneTie(cmp: Comparator, dup: DuplicateOrder, x: Entry, e: Entry)
    requires Ties(cmp, dup, [x], e) != []
    ensures !CanonicalLess(cmp, dup, x, e)
  {
    hide CanonicalLess;
    assert [x][..0] == [];
  }

  /** Sorting what is already in order changes nothing. */
  lemma {:induction false} StableSortOfOrdered(cmp: Comparator, dup: DuplicateOrder, s: seq<Entry>)
    requires InOrder(cmp, dup, s)
    ensures StableSort(cmp, dup, s) == s
  {
    if s != [] {
      hide CanonicalLess;
      var init, e := s[..|s| - 1], s[|s| - 1];
      assert s == init + [e];
      OrderedInit(cmp, dup, init, e);
      StableSortOfOrdered(cmp, dup, init);
      assert init[..|init|] == init && init[|init|..] == [];
    }
  }

  lemma OrderedInit(cmp: Comparator, dup: DuplicateOrder, init: seq<Entry>, e: Entry)
    requires InOrder(cmp, dup, init + [e])
    ensures InOrder(cmp, dup, init)
    ensures SlotFor(cmp, dup, init, e) == |init|
  {
    hide CanonicalLess;
    var s := init + [e];
    forall i, j | 0 <= i < j < |init|
      ensures !CanonicalLess(cmp, dup, init[j], init[i])
    {
      assert s[i] == init[i] && s[j] == init[j];
    }
    if init != [] {
      assert s[|init| - 1] == init[|init| - 1] && s[|init|] == e;
      assert !CanonicalLess(cmp, dup, e, init[|init| - 1]);
    }
  }

  // ---------------------------------------------------------------- snapshots

  function Pairs(s: seq<Entry>): (r: seq<(Range, Payload)>) {
    seq(|s|, i requires 0 <= i < |s| => (s[i].range, s[i].value))
  }

  function Enumerated(cmp: Comparator, dup: DuplicateOrder, s: seq<Entry>): (r: seq<(Range, Payload)>) {
    Pairs(StableSort(cmp, dup, s))
  }

  /** The pairs are those of all the entries, in canonical order. */
  ghost predicate IsSnapshot(cmp: Comparator, dup: DuplicateOrder, s: seq<Entry>, snapshot: seq<(Range, Payload)>) {
    exists t: seq<Entry> ::
      && |t| == |snapshot| && multiset(t) == multiset(s) && SnapshotOrder(cmp, dup, t)
      && forall i :: 0 <= i < |t| ==> snapshot[i] == (t[i].range, t[i].value)
  }

  lemma EnumeratedIsSnapshot(cmp: Comparator, dup: DuplicateOrder, s: seq<Entry>)
    requires LegalComparator(cmp) && LegalDuplicateOrder(dup) && InFieldOrder(cmp, s)
    ensures IsSnapshot(cmp, dup, s, Enumerated(cmp, dup, s))
  {
    hide StableSort, SnapshotOrder;
    SnapshotOnFields(cmp, dup, s);
    var t := StableSort(cmp, dup, s);
    assert forall i :: 0 <= i < |t| ==> Enumerated(cmp, dup, s)[i] == (t[i].range, t[i].value);
  }

  /** Without an evaluator the canonical order is the order the tree keeps. */
  lemma PlainEnumeration(cmp: Comparator, s: seq<Entry>)
    requires LegalComparator(cmp) && Sorted(cmp, s)
    ensures Enumerated(cmp, None, s) == Pairs(s)
  {
    forall i, j | 0 <= i < j < |s|
      ensures !CanonicalLess(cmp, None, s[j], s[i])
    {
      LessIsStrictTotalOrder(cmp, s[i], s[j], s[i]);
    }
    StableSortOfOrdered(cmp, None, s);
  }

  function Loaded(snapshot: seq<(Range, Payload)>, reconnects: Payload -> bool, i: nat): (e: Entry)
    requires i < |snapshot|
  {
    Entry(snapshot[i].0, snapshot[i].1, i, reconnects(snapshot[i].1))
  }

  /** Contents after loading the first `n` pairs of a snapshot into an empty tree. */
  ghost function Rebuilt(cmp: Comparator, snapshot: seq<(Range, Payload)>, reconnects: Payload -> bool, n: nat)
    : (s: seq<Entry>)
    requires n <= |snapshot|
  {
    if n == 0 then []
    else Insert(cmp, Rebuilt(cmp, snapshot, reconnects, n - 1), Loaded(snapshot, reconnects, n - 1))
  }

  /** A rebuilt tree holds one entry for each pair, numbered in order and reconnected as asked. */
  lemma {:induction false} RebuiltMembers(
    cmp: Comparator, snapshot: seq<(Range, Payload)>, reconnects: Payload -> bool, n: nat, e: Entry)
    requires n <= |snapshot|
    ensures |Rebuilt(cmp, snapshot, reconnects, n)| == n
    ensures e in Rebuilt(cmp, snapshot, reconnects, n) <==>
      e.ordinal < n && (e.range, e.value) == snapshot[e.ordinal] && e.hasCallback == reconnects(e.value)
  {
    if n > 0 {
      hide Insert;
      RebuiltMembers(cmp, snapshot, reconnects, n - 1, e);
      InsertMembers(cmp, Rebuilt(cmp, snapshot, reconnects, n - 1), Loaded(snapshot, reconnects, n - 1));
    }
  }

  lemma EmptyRebuilt(cmp: Comparator, snapshot: seq<(Range, Payload)>, reconnects: Payload -> bool)
    ensures Rebuilt(cmp, snapshot, reconnects, 0) == []
  {
  }

  lemma RebuiltNext(cmp: Comparator, snapshot: seq<(Range, Payload)>, reconnects: Payload -> bool, n: nat)
    requires n < |snapshot|
    ensures Rebuilt(cmp, snapshot, reconnects, n + 1) ==
      Insert(cmp, Rebuilt(cmp, snapshot, reconnects, n), Loaded(snapshot, reconnects, n))
  {
  }

  lemma RebuiltHolds(cmp: Comparator, snapshot: seq<(Range, Payload)>, reconnects: Payload -> bool)
    ensures forall e :: e in Rebuilt(cmp, snapshot, reconnects, |snapshot|) <==>
      e.ordinal < |snapshot| && (e.range, e.value) == snapshot[e.ordinal] && e.hasCallback == reconnects(e.value)
  {
    hide Rebuilt;
    forall e: Entry {
      RebuiltMembers(cmp, snapshot, reconnects, |snapshot|, e);
    }
  }

  lemma InsertLast(cmp: Comparator, s: seq<Entry>, e: Entry)
    requires forall x :: x in s ==> !EntryLess(cmp, e, x)
    ensures Insert(cmp, s, e) == s + [e]
  {
    InsertSkips(cmp, s, [], e);
    assert s + [] == s;
  }

  /** Of two loaded entries the later one does not come before the earlier one. */
  lemma LoadedInOrder(cmp: Comparator, dup: DuplicateOrder, t: seq<Entry>, reconnects: Payload -> bool, i: nat, j: nat)
    requires InOrder(cmp, dup, t) && i < j < |t|
    ensures !EntryLess(cmp, Loaded(Pairs(t), reconnects, j), Loaded(Pairs(t), reconnects, i))
  {
    assert !CanonicalLess(cmp, dup, t[j], t[i]);
  }

  lemma {:induction false} RebuiltInGivenOrder(
      cmp: Comparator, dup: DuplicateOrder, t: seq<Entry>, reconnects: Payload -> bool, n: nat)
    requires InOrder(cmp, dup, t) && n <= |t|
    ensures |Rebuilt(cmp, Pairs(t), reconnects, n)| == n
    ensures forall i :: 0 <= i < n ==> Rebuilt(cmp, Pairs(t), reconnects, n)[i] == Loaded(Pairs(t), reconnects, i)
  {
    if n > 0 {
      hide Insert, InOrder, CanonicalLess, EntryLess, Pairs, Loaded;
      RebuiltInGivenOrder(cmp, dup, t, reconnects, n - 1);
      var prefix := Rebuilt(cmp, Pairs(t), reconnects, n - 1);
      var e := Loaded(Pairs(t), reconnects, n - 1);
      NotBeforeLoaded(cmp, dup, t, reconnects, prefix);
      InsertLast(cmp, prefix, e);
    }
  }

  lemma NotBeforeLoaded(
      cmp: Comparator, dup: DuplicateOrder, t: seq<Entry>, reconnects: Payload -> bool, prefix: seq<Entry>)
    requires InOrder(cmp, dup, t) && |prefix| < |t|
    requires forall i :: 0 <= i < |prefix| ==> prefix[i] == Loaded(Pairs(t), reconnects, i)
    ensures forall x :: x in prefix ==> !EntryLess(cmp, Loaded(Pairs(t), reconnects, |prefix|), x)
  {
    hide InOrder, CanonicalLess, EntryLess, Loaded;
    forall i | 0 <= i < |prefix| ensures !EntryLess(cmp, Loaded(Pairs(t), reconnects, |prefix|), prefix[i]) {
      LoadedInOrder(cmp, dup, t, reconnects, i, |prefix|);
    }
  }

  /**
   Rebuilding from a snapshot and enumerating again, with the evaluator that made the
   snapshot or with none, gives the snapshot back.
   */
  lemma RebuildRoundTrip(
      cmp: Comparator, dup: DuplicateOrder, again: DuplicateOrder, s: seq<Entry>, reconnects: Payload -> bool)
    requires LegalComparator(cmp) && LegalDuplicateOrder(dup)
    requires again == dup || again == None
    ensures var snapshot := Enumerated(cmp, dup, s);
            Enumerated(cmp, again, Rebuilt(cmp, snapshot, reconnects, |snapshot|)) == snapshot
  {
    var t := StableSort(cmp, dup, s);
    StableSortIsSorted(cmp, dup, s);
    var snapshot := Pairs(t);
    RebuiltInGivenOrder(cmp, dup, t, reconnects, |t|);
    var r := Rebuilt(cmp, snapshot, reconnects, |t|);
    forall i, j | 0 <= i < j < |r|
      ensures !CanonicalLess(cmp, again, r[j], r[i])
    {
      assert !CanonicalLess(cmp, dup, t[j], t[i]);
      assert r[i] == Loaded(snapshot, reconnects, i) && r[j] == Loaded(snapshot, reconnects, j);
    }
    StableSortOfOrdered(cmp, again, r);
    assert Pairs(r) == snapshot;
  }
}
