/**
 Inclusive ranges with signed 64-bit endpoints, and the classifier that relates a
 candidate range to the ranges it overlaps.

 The classifier clips, sorts and sweeps. What it decides is stated independently, by
 which integer points of the candidate are covered (`Geometry`).
 */
module Intervals {

  const INT64_MIN: int := -0x8000_0000_0000_0000
  const INT64_MAX: int := 0x7fff_ffff_ffff_ffff

  type Int64 = x: int | INT64_MIN <= x <= INT64_MAX

  datatype Range = Range(start: Int64, end: Int64) {
    predicate IsValid() {
      start <= end
    }

    predicate Overlaps(other: Range) {
      IsValid() && other.IsValid() && start <= other.end && other.start <= end
    }

    predicate Contains(p: int) {
      start <= p <= end
    }
  }

  datatype Topology =
    | Clear
    | OverlaidLeft
    | OverlaidRight
    | OverlaidBoth
    | FullyCovered
    | CoveringExisting

  function Min(a: Int64, b: Int64): (m: Int64) {
    if a <= b then a else b
  }

  function Max(a: Int64, b: Int64): (m: Int64) {
    if a >= b then a else b
  }

  /** The comparisons of `Overlaps` mean exactly that the two ranges share a point. */
  lemma OverlapsIsSharedPoint(a: Range, b: Range)
    ensures a.Overlaps(b) <==> exists p :: a.Contains(p) && b.Contains(p)
    ensures a.Overlaps(b) <==> b.Overlaps(a)
  {
    if a.Overlaps(b) {
      var p := Max(a.start, b.start);
      assert a.Contains(p) && b.Contains(p);
    }
  }

  // ---------------------------------------------------------------- coverage

  ghost predicate Covered(rs: seq<Range>, p: int) {
    exists r :: r in rs && r.Contains(p)
  }

  ghost predicate CoversAll(rs: seq<Range>, range: Range) {
    forall p :: range.Contains(p) ==> Covered(rs, p)
  }

  /** What a topology means, in terms of covered points only. */
  ghost function Geometry(range: Range, overlaps: seq<Range>): (t: Topology) {
    if overlaps == [] then Clear
    else if CoversAll(overlaps, range) then FullyCovered
    else if Covered(overlaps, range.start) && Covered(overlaps, range.end) then OverlaidBoth
    else if Covered(overlaps, range.start) then OverlaidLeft
    else if Covered(overlaps, range.end) then OverlaidRight
    else CoveringExisting
  }

  // ---------------------------------------------------------------- clipping and sorting

  function Clip(range: Range, r: Range): (c: Range) {
    Range(Max(range.start, r.start), Min(range.end, r.end))
  }

  predicate StartEndLess(a: Range, b: Range) {
    if a.start != b.start then a.start < b.start else a.end < b.end
  }

  predicate SortedByStart(rs: seq<Range>) {
    forall i, j :: 0 <= i < j < |rs| ==> rs[i].start <= rs[j].start
  }

  /** By start, and among equal starts by end. */
  predicate SortedByStartEnd(rs: seq<Range>) {
    forall i, j :: 0 <= i < j < |rs| ==> !StartEndLess(rs[j], rs[i])
  }

  lemma InsertedStaysSorted(rs: seq<Range>, i: nat, r: Range)
    requires SortedByStartEnd(rs) && i <= |rs|
    requires forall k :: 0 <= k < i ==> !StartEndLess(r, rs[k])
    requires forall k :: i <= k < |rs| ==> !StartEndLess(rs[k], r)
    ensures SortedByStartEnd(rs[..i] + [r] + rs[i..])
  {
    hide StartEndLess;
    var out := rs[..i] + [r] + rs[i..];
    forall a, b | 0 <= a < b < |out|
      ensures !StartEndLess(out[b], out[a])
    {
      assert a != i ==> out[a] == rs[if a < i then a else a - 1];
      assert b != i ==> out[b] == rs[if b < i then b else b - 1];
    }
  }

  /** Insertion step of the sort: the new element goes after its equals. */
  method InsertRange(rs: seq<Range>, r: Range) returns (out: seq<Range>)
    requires SortedByStartEnd(rs)
    ensures SortedByStartEnd(out)
    ensures multiset(out) == multiset(rs) + multiset{r}
  {
    var i := |rs|;
    while i > 0 && StartEndLess(r, rs[i - 1])
      invariant 0 <= i <= |rs|
      invariant forall k :: i <= k < |rs| ==> StartEndLess(r, rs[k])
    {
      i := i - 1;
    }
    assert forall k :: 0 <= k < i ==> k == i - 1 || !StartEndLess(rs[i - 1], rs[k]);
    InsertedStaysSorted(rs, i, r);
    out := rs[..i] + [r] + rs[i..];
    assert rs == rs[..i] + rs[i..];
    assert multiset(out) == multiset(rs[..i]) + multiset{r} + multiset(rs[i..]);
  }

  method SortRanges(rs: seq<Range>) returns (out: seq<Range>)
    ensures SortedByStartEnd(out)
    ensures multiset(out) == multiset(rs)
  {
    out := [];
    for i := 0 to |rs|
      invariant SortedByStartEnd(out)
      invariant multiset(out) == multiset(rs[..i])
    {
      assert rs[..i + 1] == rs[..i] + [rs[i]];
      out := InsertRange(out, rs[i]);
    }
    assert rs[..|rs|] == rs;
  }

  lemma ClippedCoverage(range: Range, overlaps: seq<Range>, clipped: seq<Range>, p: int)
    requires range.Contains(p)
    requires forall c :: c in clipped ==> exists o :: o in overlaps && c == Clip(range, o)
    requires forall o :: o in overlaps ==> Clip(range, o) in clipped
    ensures Covered(clipped, p) <==> Covered(overlaps, p)
  {
    if Covered(clipped, p) {
      var c :| c in clipped && c.Contains(p);
      var o :| o in overlaps && c == Clip(range, o);
      assert o.Contains(p);
    }
    if Covered(overlaps, p) {
      var o :| o in overlaps && o.Contains(p);
      assert Clip(range, o).Contains(p);
    }
  }

  lemma PermutationMembership(a: seq<Range>, b: seq<Range>)
    requires multiset(a) == multiset(b)
    ensures |a| == |b| && forall r :: r in a <==> r in b
  {
    assert |multiset(a)| == |multiset(b)|;
    assert forall r :: r in a <==> r in multiset(a);
    assert forall r :: r in b <==> r in multiset(b);
  }

  method ClipAll(range: Range, overlaps: seq<Range>) returns (cs: seq<Range>)
    ensures |cs| == |overlaps|
    ensures forall k :: 0 <= k < |cs| ==> cs[k] == Clip(range, overlaps[k])
  {
    cs := [];
    for i := 0 to |overlaps|
      invariant |cs| == i
      invariant forall k :: 0 <= k < i ==> cs[k] == Clip(range, overlaps[k])
    {
      cs := cs + [Clip(range, overlaps[i])];
    }
  }

  method ClipAndSort(range: Range, overlaps: seq<Range>) returns (clipped: seq<Range>)
    requires forall o :: o in overlaps ==> range.Overlaps(o)
    ensures SortedByStart(clipped)
    ensures |clipped| == |overlaps|
    ensures forall c :: c in clipped ==> range.start <= c.start <= c.end <= range.end
    ensures forall p :: range.Contains(p) ==> (Covered(clipped, p) <==> Covered(overlaps, p))
  {
    var cs := ClipAll(range, overlaps);
    clipped := SortRanges(cs);
    assert SortedByStart(clipped);
    PermutationMembership(clipped, cs);
    forall c | c in clipped
      ensures range.start <= c.start <= c.end <= range.end
    {
      var k :| 0 <= k < |cs| && cs[k] == c;
      assert range.Overlaps(overlaps[k]);
    }
    forall p | range.Contains(p)
      ensures Covered(clipped, p) <==> Covered(overlaps, p)
    {
      ClippedCoverage(range, overlaps, clipped, p);
    }
  }

  // ---------------------------------------------------------------- the sweep

  /** Everything in the first `i` sorted clips ends by `end`, and `end` is reached. */
  ghost predicate SweptTo(clipped: seq<Range>, i: nat, end: int)
    requires i <= |clipped|
  {
    && (forall k :: 0 <= k < i ==> clipped[k].end <= end)
    && (exists k :: 0 <= k < i && clipped[k].end == end)
  }

  /** The sweep flag: either the prefix up to `end` is covered, or a hole is left for good. */
  ghost predicate SweepFlag(range: Range, clipped: seq<Range>, end: int, continuous: bool) {
    if continuous
    then forall p :: range.start <= p <= end ==> Covered(clipped, p)
    else exists p :: range.Contains(p) && !Covered(clipped, p)
  }

  lemma GapStays(range: Range, clipped: seq<Range>, i: nat, end: int)
    requires SortedByStart(clipped)
    requires 0 < i < |clipped|
    requires forall c :: c in clipped ==> range.start <= c.start <= c.end <= range.end
    requires SweptTo(clipped, i, end)
    requires clipped[i].start > end + 1
    ensures exists p :: range.Contains(p) && !Covered(clipped, p)
  {
    var p := end + 1;
    assert range.start <= clipped[0].start <= clipped[0].end <= end;
    forall c | c in clipped
      ensures !c.Contains(p)
    {
      var k :| 0 <= k < |clipped| && clipped[k] == c;
      if k >= i {
        assert clipped[i].start <= c.start;
      }
    }
    assert range.Contains(p) && !Covered(clipped, p);
  }

  lemma NextExtends(range: Range, clipped: seq<Range>, i: nat, end: int)
    requires 0 < i < |clipped|
    requires SweptTo(clipped, i, end)
    requires clipped[i].start <= end + 1
    requires SweepFlag(range, clipped, end, true)
    ensures SweepFlag(range, clipped, if end >= clipped[i].end then end else clipped[i].end, true)
  {
    var next := clipped[i];
    forall p | range.start <= p <= (if end >= next.end then end else next.end)
      ensures Covered(clipped, p)
    {
      if p > end {
        assert next in clipped && next.Contains(p);
      }
    }
  }

  lemma NoLeftNoCover(range: Range, clipped: seq<Range>)
    requires range.IsValid() && clipped != []
    requires SortedByStart(clipped)
    requires forall c :: c in clipped ==> range.start <= c.start <= c.end <= range.end
    ensures clipped[0].start == range.start <==> Covered(clipped, range.start)
    ensures clipped[0].start == range.start ==> SweepFlag(range, clipped, clipped[0].end, true)
    ensures clipped[0].start != range.start ==> SweepFlag(range, clipped, clipped[0].end, false)
  {
    var c0 := clipped[0];
    assert c0 in clipped;
    if c0.start == range.start {
      assert c0.Contains(range.start);
      forall p | range.start <= p <= c0.end
        ensures Covered(clipped, p)
      {
        assert c0.Contains(p);
      }
    } else {
      forall c | c in clipped
        ensures !c.Contains(range.start)
      {
        var k :| 0 <= k < |clipped| && clipped[k] == c;
        assert c0.start <= c.start;
      }
      assert !Covered(clipped, range.start) && range.Contains(range.start);
    }
  }

  /** Sweep the sorted clips: continuity from the left end, and the last covered point. */
  method Sweep(range: Range, clipped: seq<Range>)
    returns (left: bool, right: bool, continuous: bool)
    requires range.IsValid() && clipped != []
    requires SortedByStart(clipped)
    requires forall c :: c in clipped ==> range.start <= c.start <= c.end <= range.end
    ensures left <==> Covered(clipped, range.start)
    ensures right <==> Covered(clipped, range.end)
    ensures continuous && right <==> CoversAll(clipped, range)
  {
    NoLeftNoCover(range, clipped);
    left := clipped[0].start == range.start;
    var coveredEnd: Int64 := clipped[0].end;
    continuous := left;
    assert SweptTo(clipped, 1, coveredEnd);
    for index := 1 to |clipped|
      invariant SweptTo(clipped, index, coveredEnd)
      invariant coveredEnd <= range.end
      invariant SweepFlag(range, clipped, coveredEnd, continuous)
    {
      var next := clipped[index];
      if coveredEnd != INT64_MAX {
        var successor: Int64 := coveredEnd + 1;
        if next.start > successor {
          GapStays(range, clipped, index, coveredEnd);
          continuous := false;
        }
      }
      if continuous {
        NextExtends(range, clipped, index, coveredEnd);
      }
      coveredEnd := Max(coveredEnd, next.end);
      assert clipped[index].end <= coveredEnd;
    }
    right := coveredEnd == range.end;
    SweepEnd(range, clipped, coveredEnd, continuous);
  }

  lemma SweepEnd(range: Range, clipped: seq<Range>, coveredEnd: Int64, continuous: bool)
    requires range.IsValid() && clipped != []
    requires forall c :: c in clipped ==> range.start <= c.start <= c.end <= range.end
    requires SweptTo(clipped, |clipped|, coveredEnd)
    requires SweepFlag(range, clipped, coveredEnd, continuous)
    ensures coveredEnd == range.end <==> Covered(clipped, range.end)
    ensures continuous && coveredEnd == range.end <==> CoversAll(clipped, range)
  {
    var k :| 0 <= k < |clipped| && clipped[k].end == coveredEnd;
    assert clipped[k] in clipped;
    assert range.Contains(range.end);
    if coveredEnd == range.end {
      assert clipped[k].Contains(range.end);
    }
  }

  // ---------------------------------------------------------------- the classifier

  /** Bounding box of the overlaps, and whether one of them lies strictly inside. */
  method BoundingBox(range: Range, overlaps: seq<Range>) returns (start: Int64, end: Int64, contained: bool)
    requires overlaps != []
    ensures forall o :: o in overlaps ==> start <= o.start && o.end <= end
    ensures exists o :: o in overlaps && o.start == start
    ensures exists o :: o in overlaps && o.end == end
    ensures contained <==> exists o :: o in overlaps && range.start < o.start && o.end < range.end
  {
    start, end, contained := overlaps[0].start, overlaps[0].end, false;
    for i := 0 to |overlaps|
      invariant forall k :: 0 <= k < i ==> start <= overlaps[k].start && overlaps[k].end <= end
      invariant exists k :: 0 <= k < |overlaps| && overlaps[k].start == start
      invariant exists k :: 0 <= k < |overlaps| && overlaps[k].end == end
      invariant contained <==> exists k :: 0 <= k < i && range.start < overlaps[k].start && overlaps[k].end < range.end
    {
      start := Min(start, overlaps[i].start);
      end := Max(end, overlaps[i].end);
      contained := contained || (range.start < overlaps[i].start && overlaps[i].end < range.end);
    }
  }

  lemma CoveringMeansNeitherEnd(range: Range, overlaps: seq<Range>, start: Int64, end: Int64, contained: bool)
    requires range.IsValid() && overlaps != []
    requires forall o :: o in overlaps ==> range.Overlaps(o)
    requires forall o :: o in overlaps ==> start <= o.start && o.end <= end
    requires exists o :: o in overlaps && o.start == start
    requires exists o :: o in overlaps && o.end == end
    requires contained <==> exists o :: o in overlaps && range.start < o.start && o.end < range.end
    ensures contained && range.start < start && range.end > end
            <==> !Covered(overlaps, range.start) && !Covered(overlaps, range.end)
  {
    if !Covered(overlaps, range.start) && !Covered(overlaps, range.end) {
      forall o | o in overlaps
        ensures range.start < o.start && o.end < range.end
      {
        assert !o.Contains(range.start) && !o.Contains(range.end);
      }
      assert overlaps[0] in overlaps;
    }
  }

  /** The classifier decides exactly the point-coverage geometry of its input. */
  method ClassifyTopology(range: Range, overlaps: seq<Range>) returns (t: Topology)
    requires range.IsValid()
    requires forall o :: o in overlaps ==> range.Overlaps(o)
    ensures t == Geometry(range, overlaps)
  {
    if overlaps == [] {
      return Clear;
    }
    var clipped := ClipAndSort(range, overlaps);
    var left, right, continuous := Sweep(range, clipped);
    assert range.Contains(range.start) && range.Contains(range.end);
    assert CoversAll(clipped, range) <==> CoversAll(overlaps, range);
    if continuous && right {
      return FullyCovered;
    }
    var start, end, contained := BoundingBox(range, overlaps);
    CoveringMeansNeitherEnd(range, overlaps, start, end, contained);
    if contained && range.start < start && range.end > end {
      return CoveringExisting;
    }
    if left && right {
      return OverlaidBoth;
    }
    if left {
      return OverlaidLeft;
    }
    if right {
      return OverlaidRight;
    }
    t := Clear;
  }

  /** The geometry depends on which ranges overlap, not on their order or multiplicity. */
  lemma GeometryIgnoresOrder(range: Range, a: seq<Range>, b: seq<Range>)
    requires forall r :: r in a <==> r in b
    ensures Geometry(range, a) == Geometry(range, b)
  {
    assert forall p :: Covered(a, p) <==> Covered(b, p);
    assert a == [] <==> b == [] by {
      if a != [] { assert a[0] in b; }
      if b != [] { assert b[0] in a; }
    }
  }
}
