/**
 Stored entries and the order the tree keeps them in: ranges first (a caller-supplied
 comparator with the endpoint order as tie-break), insertion ordinals for equal ranges.
 The sorted sequence of entries is what every tree operation is specified against.
 */
module EntryOrder {
  import opened Common
  import opened Intervals

  type Payload(!new, ==)

  datatype Entry = Entry(range: Range, value: Payload, ordinal: nat, hasCallback: bool)

  type Comparator = Option<(Range, Range) -> bool>

  predicate RangeLess(cmp: Comparator, a: Range, b: Range) {
    if cmp.Some? && cmp.value(a, b) then true
    else if cmp.Some? && cmp.value(b, a) then false
    else StartEndLess(a, b)
  }

  predicate EntryLess(cmp: Comparator, a: Entry, b: Entry) {
    if a.range == b.range then a.ordinal < b.ordinal
    else RangeLess(cmp, a.range, b.range)
  }

  ghost predicate StrictWeakOrder<T(!new)>(less: (T, T) -> bool) {
    && (forall a :: !less(a, a))
    && (forall a, b, c :: less(a, b) && less(b, c) ==> less(a, c))
    && (forall a, b, c :: less(a, c) ==> less(a, b) || less(b, c))
  }

  /** What the tree demands of a comparator its caller supplies. */
  ghost predicate LegalComparator(cmp: Comparator) {
    cmp.Some? ==> StrictWeakOrder(cmp.value)
  }

  lemma RangeOrder(cmp: Comparator, a: Range, b: Range, c: Range)
    requires LegalComparator(cmp)
    ensures !RangeLess(cmp, a, a)
    ensures a != b ==> RangeLess(cmp, a, b) || RangeLess(cmp, b, a)
    ensures RangeLess(cmp, a, b) && RangeLess(cmp, b, c) ==> RangeLess(cmp, a, c)
  {
  }

  /** `EntryLess` is a strict order, total on entries with distinct ordinals. */
  lemma LessIsStrictTotalOrder(cmp: Comparator, a: Entry, b: Entry, c: Entry)
    requires LegalComparator(cmp)
    ensures !EntryLess(cmp, a, a)
    ensures EntryLess(cmp, a, b) ==> !EntryLess(cmp, b, a)
    ensures EntryLess(cmp, a, b) && EntryLess(cmp, b, c) ==> EntryLess(cmp, a, c)
    ensures a.ordinal != b.ordinal ==> EntryLess(cmp, a, b) || EntryLess(cmp, b, a)
  {
    RangeOrder(cmp, a.range, b.range, c.range);
    RangeOrder(cmp, a.range, b.range, a.range);
  }

  // ---------------------------------------------------------------- sorted sequences

  ghost predicate Sorted(cmp: Comparator, s: seq<Entry>) {
    forall i, j :: 0 <= i < j < |s| ==> EntryLess(cmp, s[i], s[j])
  }

  /** By start, and among equal starts by end. */
  predicate StartsFirst(a: Range, b: Range) {
    a.start < b.start || (a.start == b.start && a.end < b.end)
  }

  /** The comparator's order on different ranges, endpoints where it has no opinion, then ordinals. */
  ghost predicate InFieldOrder(cmp: Comparator, s: seq<Entry>) {
    forall i, j :: 0 <= i < j < |s| ==> FieldsInOrder(cmp, s[i], s[j])
  }

  predicate FieldsInOrder(cmp: Comparator, a: Entry, b: Entry) {
    && (a.range == b.range ==> a.ordinal < b.ordinal)
    && (a.range != b.range ==> RangesInOrder(cmp, a.range, b.range))
  }

  predicate RangesInOrder(cmp: Comparator, a: Range, b: Range) {
    && (cmp.None? ==> StartsFirst(a, b))
    && (cmp.Some? ==> !cmp.value(b, a) && (cmp.value(a, b) || StartsFirst(a, b)))
  }

  /** What the order of the tree means for starts, ends and ordinals. */
  lemma SortedOnFields(cmp: Comparator, s: seq<Entry>)
    requires LegalComparator(cmp)
    ensures Sorted(cmp, s) ==> InFieldOrder(cmp, s)
    ensures InFieldOrder(cmp, s) ==> Sorted(cmp, s)
  {
  }

  lemma SortedParts(cmp: Comparator, a: seq<Entry>, b: seq<Entry>)
    requires Sorted(cmp, a + b)
    ensures Sorted(cmp, a) && Sorted(cmp, b)
    ensures forall x, y :: x in a && y in b ==> EntryLess(cmp, x, y)
  {
    var s := a + b;
    forall i, j | 0 <= i < j < |a|
      ensures EntryLess(cmp, a[i], a[j])
    {
      assert s[i] == a[i] && s[j] == a[j];
    }
    forall i, j | 0 <= i < j < |b|
      ensures EntryLess(cmp, b[i], b[j])
    {
      assert s[|a| + i] == b[i] && s[|a| + j] == b[j];
    }
    forall x, y | x in a && y in b
      ensures EntryLess(cmp, x, y)
    {
      var i :| 0 <= i < |a| && a[i] == x;
      var j :| 0 <= j < |b| && b[j] == y;
      assert s[i] == x && s[|a| + j] == y;
    }
  }

  // ---------------------------------------------------------------- insertion

  /** The sorted-list meaning of adding one entry. */
  ghost function Insert(cmp: Comparator, s: seq<Entry>, e: Entry): (r: seq<Entry>) {
    if s == [] then [e]
    else if EntryLess(cmp, e, s[0]) then [e] + s
    else [s[0]] + Insert(cmp, s[1..], e)
  }

  lemma {:induction false} InsertMembers(cmp: Comparator, s: seq<Entry>, e: Entry)
    ensures multiset(Insert(cmp, s, e)) == multiset(s) + multiset{e}
    ensures |Insert(cmp, s, e)| == |s| + 1
    ensures forall x :: x in Insert(cmp, s, e) <==> x in s || x == e
  {
    if s != [] && !EntryLess(cmp, e, s[0]) {
      InsertMembers(cmp, s[1..], e);
      assert s == [s[0]] + s[1..];
    }
  }

  lemma {:induction false} InsertKeepsSorted(cmp: Comparator, s: seq<Entry>, e: Entry)
    requires LegalComparator(cmp)
    requires Sorted(cmp, s)
    requires forall x :: x in s ==> x.ordinal != e.ordinal
    ensures Sorted(cmp, Insert(cmp, s, e))
  {
    if s == [] {
    } else if EntryLess(cmp, e, s[0]) {
      forall y | y in s
        ensures EntryLess(cmp, e, y)
      {
        LessIsStrictTotalOrder(cmp, e, s[0], y);
      }
    } else {
      var rest := s[1..];
      assert s == [s[0]] + rest;
      SortedParts(cmp, [s[0]], rest);
      InsertKeepsSorted(cmp, rest, e);
      InsertMembers(cmp, rest, e);
      LessIsStrictTotalOrder(cmp, e, s[0], e);
    }
  }

  lemma {:induction false} InsertSkips(cmp: Comparator, l: seq<Entry>, s: seq<Entry>, e: Entry)
    requires forall x :: x in l ==> !EntryLess(cmp, e, x)
    ensures Insert(cmp, l + s, e) == l + Insert(cmp, s, e)
  {
    if l == [] {
      assert l + s == s;
    } else {
      InsertSkips(cmp, l[1..], s, e);
      assert (l + s)[1..] == l[1..] + s;
    }
  }

  lemma {:induction false} InsertStops(cmp: Comparator, c: seq<Entry>, r: seq<Entry>, e: Entry)
    requires r == [] || EntryLess(cmp, e, r[0])
    ensures Insert(cmp, c + r, e) == Insert(cmp, c, e) + r
  {
    if c == [] {
      assert c + r == r;
    } else if !EntryLess(cmp, e, c[0]) {
      InsertStops(cmp, c[1..], r, e);
      assert (c + r)[1..] == c[1..] + r;
    }
  }

  /** Insertion only touches the part between what is not above `e` and what is above it. */
  lemma InsertMiddle(cmp: Comparator, l: seq<Entry>, c: seq<Entry>, r: seq<Entry>, e: Entry)
    requires forall x :: x in l ==> !EntryLess(cmp, e, x)
    requires r == [] || EntryLess(cmp, e, r[0])
    ensures Insert(cmp, l + c + r, e) == l + Insert(cmp, c, e) + r
  {
    InsertSkips(cmp, l, c + r, e);
    InsertStops(cmp, c, r, e);
    assert l + c + r == l + (c + r);
  }

  // ---------------------------------------------------------------- removal

  /** The sorted-list meaning of erasing one entry. */
  ghost function Remove(s: seq<Entry>, t: Entry): (r: seq<Entry>) {
    if s == [] then []
    else if s[0] == t then s[1..]
    else [s[0]] + Remove(s[1..], t)
  }

  lemma {:induction false} RemoveMiddle(l: seq<Entry>, c: seq<Entry>, r: seq<Entry>, t: Entry)
    requires t !in l && t in c
    ensures Remove(l + c + r, t) == l + Remove(c, t) + r
  {
    if l != [] {
      RemoveMiddle(l[1..], c, r, t);
      assert (l + c + r)[1..] == l[1..] + c + r;
    } else {
      assert l + c + r == c + r;
      if c[0] == t {
        assert (c + r)[1..] == c[1..] + r;
      } else {
        RemoveMiddle([], c[1..], r, t);
        assert (c + r)[1..] == [] + c[1..] + r;
      }
    }
  }

  lemma {:induction false} RemoveKeepsSorted(cmp: Comparator, s: seq<Entry>, t: Entry)
    requires LegalComparator(cmp)
    requires Sorted(cmp, s)
    ensures Sorted(cmp, Remove(s, t))
    ensures forall x :: x in Remove(s, t) <==> x in s && x != t
    ensures t in s ==> multiset(s) == multiset(Remove(s, t)) + multiset{t} && |Remove(s, t)| == |s| - 1
  {
    if s != [] {
      var rest := s[1..];
      assert s == [s[0]] + rest;
      SortedParts(cmp, [s[0]], rest);
      LessIsStrictTotalOrder(cmp, s[0], s[0], s[0]);
      if s[0] != t {
        RemoveKeepsSorted(cmp, rest, t);
      }
    }
  }
}
