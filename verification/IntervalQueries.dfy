/**
 Reading the tree: in-order collection and the overlap queries that skip a subtree whose
 recorded maximum ends before the query starts.
 */
module IntervalQueries {
  import opened Intervals
  import opened EntryOrder
  import opened IntervalNodes

  ghost function Kept(e: Entry, range: Range): (r: seq<Entry>) {
    if e.range.Overlaps(range) then [e] else []
  }

  /** The entries that overlap a range, in order. */
  ghost function Overlapping(s: seq<Entry>, range: Range): (r: seq<Entry>) {
    if s == [] then []
    else Overlapping(s[..|s| - 1], range) + Kept(s[|s| - 1], range)
  }

  lemma {:induction false} OverlappingConcat(a: seq<Entry>, b: seq<Entry>, range: Range)
    ensures Overlapping(a + b, range) == Overlapping(a, range) + Overlapping(b, range)
  {
    if b == [] {
      assert a + b == a;
    } else {
      OverlappingConcat(a, b[..|b| - 1], range);
      assert (a + b)[..|a + b| - 1] == a + b[..|b| - 1];
    }
  }

  /** The filter keeps exactly the overlapping entries. */
  lemma {:induction false} OverlappingMembers(s: seq<Entry>, range: Range)
    ensures forall e :: e in Overlapping(s, range) <==> e in s && e.range.Overlaps(range)
  {
    if s != [] {
      OverlappingMembers(s[..|s| - 1], range);
      assert s == s[..|s| - 1] + [s[|s| - 1]];
    }
  }

  /** The filter keeps the order. */
  lemma {:induction false} OverlappingKeepsOrder(cmp: Comparator, s: seq<Entry>, range: Range)
    requires InFieldOrder(cmp, s)
    ensures InFieldOrder(cmp, Overlapping(s, range))
  {
    if s != [] {
      hide FieldsInOrder;
      var init, e := s[..|s| - 1], s[|s| - 1];
      assert forall i, j :: 0 <= i < j < |init| ==> FieldsInOrder(cmp, s[i], s[j]);
      OverlappingKeepsOrder(cmp, init, range);
      OverlappingMembers(init, range);
      var o := Overlapping(init, range);
      forall x | x in o ensures FieldsInOrder(cmp, x, e) {
        var i :| 0 <= i < |init| && init[i] == x;
        assert s[i] == x;
      }
      LastInOrder(cmp, o, e);
    }
  }

  lemma LastInOrder(cmp: Comparator, o: seq<Entry>, e: Entry)
    requires InFieldOrder(cmp, o) && forall x :: x in o ==> FieldsInOrder(cmp, x, e)
    ensures InFieldOrder(cmp, o + [e]) && o + [] == o
  {
  }

  lemma OverlappingOne(e: Entry, range: Range)
    ensures Overlapping([e], range) == Kept(e, range)
  {
    assert [e][..0] == [];
  }

  lemma NoMembers(s: seq<Entry>)
    ensures (forall e :: e !in s) ==> s == []
  {
    if s != [] {
      assert s[0] in s;
    }
  }

  lemma PrunedIsEmpty(n: Node, range: Range)
    requires ExactMax(n) && n.maxEnd < range.start
    ensures Overlapping(Contents(n), range) == []
  {
    MaxEndIsMaximum(Contents(n));
    OverlappingMembers(Contents(n), range);
    NoMembers(Overlapping(Contents(n), range));
  }

  // ---------------------------------------------------------------- in-order prefixes

  ghost function Before(n: Node, i: nat): (s: seq<Entry>)
    requires i <= |n.entries| && (n.isLeaf || |n.children| == |n.entries| + 1)
  {
    if n.isLeaf then n.entries[..i] else Left(n.children[..i], n.entries[..i])
  }

  ghost function Below(n: Node, i: nat): (s: seq<Entry>)
    requires i <= |n.entries| && (n.isLeaf || |n.children| == |n.entries| + 1)
  {
    if n.isLeaf then [] else Contents(n.children[i])
  }

  ghost function After(n: Node, i: nat): (s: seq<Entry>)
    requires i <= |n.entries| && (n.isLeaf || |n.children| == |n.entries| + 1)
  {
    if n.isLeaf then n.entries[i..] else Right(n.entries[i..], n.children[i + 1..])
  }

  lemma PrefixSteps(n: Node, i: nat)
    requires i <= |n.entries| && (n.isLeaf || |n.children| == |n.entries| + 1)
    ensures Before(n, 0) == [] && After(n, |n.entries|) == []
    ensures Contents(n) == Before(n, i) + Below(n, i) + After(n, i)
    ensures i < |n.entries| ==> Before(n, i + 1) == Before(n, i) + Below(n, i) + [n.entries[i]]
    ensures i < |n.entries| ==> After(n, i) != [] && After(n, i)[0] == n.entries[i]
  {
    if n.isLeaf {
      assert n.entries == n.entries[..i] + [] + n.entries[i..];
    } else {
      PrefixStepsInternal(n, i);
    }
  }

  lemma PrefixStepsInternal(n: Node, i: nat)
    requires i <= |n.entries| && !n.isLeaf && |n.children| == |n.entries| + 1
    ensures Before(n, 0) == [] && After(n, |n.entries|) == []
    ensures Contents(n) == Before(n, i) + Below(n, i) + After(n, i)
    ensures i < |n.entries| ==> Before(n, i + 1) == Before(n, i) + Below(n, i) + [n.entries[i]]
    ensures i < |n.entries| ==> After(n, i) != [] && After(n, i)[0] == n.entries[i]
  {
    hide Contents, Left, Right;
    EmptySides();
    assert n.children[..0] == [] && n.entries[..0] == [];
    assert n.entries[|n.entries|..] == [] && n.children[|n.entries| + 1..] == [];
    ContentsAround(n, i);
    RightStartsWith(n.entries[i..], n.children[i + 1..]);
    if i < |n.entries| {
      assert n.children[..i + 1] == n.children[..i] + [n.children[i]];
      assert n.entries[..i + 1] == n.entries[..i] + [n.entries[i]];
      LeftAppend(n.children[..i], n.entries[..i], n.children[i], n.entries[i]);
    }
  }

  lemma BalancedFacts(n: Node, h: nat)
    requires Balanced(n, h)
    ensures ExactMax(n) && (n.isLeaf <==> h == 0) && (n.isLeaf || |n.children| == |n.entries| + 1)
    ensures h > 0 ==> forall i :: 0 <= i < |n.children| ==> Balanced(n.children[i], h - 1)
  {
  }

  lemma OverlapSplit(n: Node, i: nat, range: Range)
    requires i <= |n.entries| && (n.isLeaf || |n.children| == |n.entries| + 1)
    ensures Overlapping(Contents(n), range)
         == Overlapping(Before(n, i), range) + Overlapping(Below(n, i), range) + Overlapping(After(n, i), range)
    ensures i < |n.entries| ==>
      Overlapping(Before(n, i + 1), range) ==
      Overlapping(Before(n, i), range) + Overlapping(Below(n, i), range) + Kept(n.entries[i], range)
    ensures Overlapping([], range) == []
  {
    hide Contents, Before, Below, After, Overlapping;
    PrefixSteps(n, i);
    OverlappingConcat(Before(n, i) + Below(n, i), After(n, i), range);
    OverlappingConcat(Before(n, i), Below(n, i), range);
    if i < |n.entries| {
      OverlappingConcat(Before(n, i) + Below(n, i), [n.entries[i]], range);
      OverlappingOne(n.entries[i], range);
    }
    EmptyOverlap(range);
  }

  lemma EmptyOverlap(range: Range)
    ensures Overlapping([], range) == []
  {
  }

  lemma HitIsFound(n: Node, i: nat, range: Range)
    requires i < |n.entries| && (n.isLeaf || |n.children| == |n.entries| + 1)
    requires n.entries[i].range.Overlaps(range)
    ensures Overlapping(Contents(n), range) != []
  {
    PrefixSteps(n, i);
    OverlappingMembers(Contents(n), range);
    assert n.entries[i] in After(n, i);
    assert n.entries[i] in Contents(n);
  }

  // ---------------------------------------------------------------- queries

  method HasOverlapInSubtree(n: Node, range: Range, ghost h: nat) returns (found: bool)
    requires Balanced(n, h)
    ensures found <==> Overlapping(Contents(n), range) != []
    decreases h
  {
    hide Contents, Before, Below, After, Overlapping, Balanced;
    BalancedFacts(n, h);
    if n.maxEnd < range.start {
      PrunedIsEmpty(n, range);
      return false;
    }
    OverlapSplit(n, 0, range);
    PrefixSteps(n, 0);
    for index := 0 to |n.entries|
      invariant Overlapping(Before(n, index), range) == []
    {
      OverlapSplit(n, index, range);
      BelowIs(n, index);
      if !n.isLeaf {
        var below := HasOverlapInSubtree(n.children[index], range, h - 1);
        if below {
          return true;
        }
      }
      if n.entries[index].range.Overlaps(range) {
        HitIsFound(n, index, range);
        return true;
      }
    }
    OverlapSplit(n, |n.entries|, range);
    PrefixSteps(n, |n.entries|);
    BelowIs(n, |n.entries|);
    if n.isLeaf {
      return false;
    }
    found := HasOverlapInSubtree(n.children[|n.children| - 1], range, h - 1);
  }

  lemma BelowIs(n: Node, i: nat)
    requires i <= |n.entries| && (n.isLeaf || |n.children| == |n.entries| + 1)
    ensures Below(n, i) == if n.isLeaf then [] else Contents(n.children[i])
  {
  }

  /** The pruned traversal reports what filtering the full in-order contents would. */
  method VisitOverlappingInOrder(n: Node, range: Range, ghost h: nat) returns (visited: seq<Entry>)
    requires Balanced(n, h)
    ensures visited == Overlapping(Contents(n), range)
    decreases h
  {
    hide Contents, Before, Below, After, Overlapping, Balanced;
    BalancedFacts(n, h);
    visited := [];
    if n.maxEnd < range.start {
      PrunedIsEmpty(n, range);
      return;
    }
    OverlapSplit(n, 0, range);
    PrefixSteps(n, 0);
    for index := 0 to |n.entries|
      invariant visited == Overlapping(Before(n, index), range)
    {
      OverlapSplit(n, index, range);
      BelowIs(n, index);
      if !n.isLeaf {
        var below := VisitOverlappingInOrder(n.children[index], range, h - 1);
        visited := visited + below;
      }
      if n.entries[index].range.Overlaps(range) {
        visited := visited + [n.entries[index]];
      }
    }
    OverlapSplit(n, |n.entries|, range);
    PrefixSteps(n, |n.entries|);
    BelowIs(n, |n.entries|);
    if !n.isLeaf {
      var below := VisitOverlappingInOrder(n.children[|n.children| - 1], range, h - 1);
      visited := visited + below;
    }
  }

  method CollectEntriesInOrder(n: Node, ghost h: nat) returns (s: seq<Entry>)
    requires Balanced(n, h)
    ensures s == Contents(n)
    decreases h
  {
    hide Contents, Before, Below, After, Balanced;
    BalancedFacts(n, h);
    if n.isLeaf {
      LeafContents(n);
      return n.entries;
    }
    s := [];
    PrefixSteps(n, 0);
    for index := 0 to |n.entries|
      invariant s == Before(n, index)
    {
      PrefixSteps(n, index);
      BelowIs(n, index);
      var below := CollectEntriesInOrder(n.children[index], h - 1);
      s := s + below + [n.entries[index]];
    }
    PrefixSteps(n, |n.entries|);
    BelowIs(n, |n.entries|);
    var last := CollectEntriesInOrder(n.children[|n.children| - 1], h - 1);
    s := s + last;
  }
}
