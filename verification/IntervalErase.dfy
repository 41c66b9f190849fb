/**
 Deletion from the B-tree: rotation and merging of siblings, removal of a subtree's
 extreme entry, and erasure of one target, each against the in-order contents.
 */
module IntervalErase {
  import opened Common
  import opened EntryOrder
  import opened IntervalNodes

  // ---------------------------------------------------------------- node ends

  function DropLast(n: Node): (r: Node)
    requires n.entries != [] && (n.isLeaf || n.children != [])
  {
    n.(entries := n.entries[..|n.entries| - 1],
       children := if n.isLeaf then n.children else n.children[..|n.children| - 1])
  }

  function DropFirst(n: Node): (r: Node)
    requires n.entries != [] && (n.isLeaf || n.children != [])
  {
    n.(entries := n.entries[1..], children := if n.isLeaf then n.children else n.children[1..])
  }

  function AddFirst(n: Node, sub: seq<Node>, e: Entry): (r: Node) {
    n.(entries := [e] + n.entries, children := if n.isLeaf then n.children else sub + n.children)
  }

  function AddLast(n: Node, e: Entry, sub: seq<Node>): (r: Node) {
    n.(entries := n.entries + [e], children := if n.isLeaf then n.children else n.children + sub)
  }

  function LastChild(n: Node): (sub: seq<Node>)
    requires n.isLeaf || n.children != []
  {
    if n.isLeaf then [] else [n.children[|n.children| - 1]]
  }

  function FirstChild(n: Node): (sub: seq<Node>)
    requires n.isLeaf || n.children != []
  {
    if n.isLeaf then [] else [n.children[0]]
  }

  ghost function SubContents(sub: seq<Node>): (s: seq<Entry>) {
    if sub == [] then [] else Contents(sub[0])
  }

  lemma DropLastContents(n: Node, h: nat)
    requires Shape(n, h) && n.entries != []
    ensures Contents(n) == Contents(DropLast(n)) + [n.entries[|n.entries| - 1]] + SubContents(LastChild(n))
    ensures Shape(DropLast(n), h)
  {
    if h == 0 {
      var k := |n.entries| - 1;
      assert n.entries == n.entries[..k] + [n.entries[k]];
    } else {
      DropLastInternal(n, h - 1);
    }
  }

  lemma DropLastInternal(n: Node, h: nat)
    requires Shape(n, h + 1) && n.entries != [] && !n.isLeaf && n.children != []
    ensures Contents(n) == Contents(DropLast(n)) + [n.entries[|n.entries| - 1]] + SubContents(LastChild(n))
    ensures Shape(DropLast(n), h + 1)
  {
    hide Contents, Left, Right, Shape, Balanced;
    var d, k := DropLast(n), |n.entries| - 1;
    ShapeFacts(n, h + 1);
    ContentsAroundPair(n, k);
    EmptySides();
    assert n.entries[k + 1..] == [] && n.children[k + 2..] == [];
    assert d.children[..k] == n.children[..k];
    ContentsToLast(d);
    ShapeOf(d, h);
  }

  lemma DropFirstContents(n: Node, h: nat)
    requires Shape(n, h) && n.entries != []
    ensures Contents(n) == SubContents(FirstChild(n)) + [n.entries[0]] + Contents(DropFirst(n))
    ensures Shape(DropFirst(n), h)
  {
    if h == 0 {
      assert n.entries == [n.entries[0]] + n.entries[1..];
    } else {
      DropFirstInternal(n, h - 1);
    }
  }

  lemma DropFirstInternal(n: Node, h: nat)
    requires Shape(n, h + 1) && n.entries != [] && !n.isLeaf && n.children != []
    ensures Contents(n) == SubContents(FirstChild(n)) + [n.entries[0]] + Contents(DropFirst(n))
    ensures Shape(DropFirst(n), h + 1)
  {
    hide Contents, Left, Right, Shape, Balanced;
    var d := DropFirst(n);
    ShapeFacts(n, h + 1);
    ContentsAroundPair(n, 0);
    EmptySides();
    assert n.entries[..0] == [] && n.children[..0] == [];
    assert d.children[1..] == n.children[2..];
    ContentsFromFirst(d);
    ShapeOf(d, h);
  }

  /** What `Shape` says of an internal node, in membership form. */
  lemma ShapeFacts(n: Node, h: nat)
    requires Shape(n, h) && h > 0
    ensures !n.isLeaf && |n.children| == |n.entries| + 1
    ensures forall c :: c in n.children ==> Child(c, h - 1)
    ensures forall i :: 0 <= i < |n.children| ==> Child(n.children[i], h - 1)
  {
  }

  ghost predicate Subtrees(sub: seq<Node>, h: nat) {
    if h == 0 then sub == [] else |sub| == 1 && Child(sub[0], h - 1)
  }

  lemma AddFirstContents(n: Node, sub: seq<Node>, e: Entry, h: nat)
    requires Shape(n, h) && Subtrees(sub, h)
    ensures Contents(AddFirst(n, sub, e)) == SubContents(sub) + [e] + Contents(n)
    ensures Shape(AddFirst(n, sub, e), h)
  {
    if h > 0 {
      hide Contents, Left, Right, Shape, Balanced;
      var r := AddFirst(n, sub, e);
      ShapeFacts(n, h);
      assert Child(sub[0], h - 1);
      assert forall c :: c in r.children ==> c == sub[0] || c in n.children;
      ShapeOf(r, h - 1);
      DropFirstContents(r, h);
      assert DropFirst(r) == n;
    }
  }

  lemma AddLastContents(n: Node, e: Entry, sub: seq<Node>, h: nat)
    requires Shape(n, h) && Subtrees(sub, h)
    ensures Contents(AddLast(n, e, sub)) == Contents(n) + [e] + SubContents(sub)
    ensures Shape(AddLast(n, e, sub), h)
  {
    if h > 0 {
      hide Contents, Left, Right, Shape, Balanced;
      var r := AddLast(n, e, sub);
      ShapeFacts(n, h);
      assert Child(sub[0], h - 1);
      assert forall c :: c in r.children ==> c == sub[0] || c in n.children;
      ShapeOf(r, h - 1);
      DropLastContents(r, h);
      assert DropLast(r) == n;
    }
  }

  lemma EndSubtrees(n: Node, h: nat)
    requires Shape(n, h)
    ensures n.isLeaf || n.children != []
    ensures Subtrees(LastChild(n), h) && Subtrees(FirstChild(n), h)
  {
  }

  // ---------------------------------------------------------------- pairs of siblings

  /** Replace children `i` and `i + 1` and their separator, keeping the pair's contents. */
  method ReplacePair(parent: Node, i: nat, a: Node, e: Entry, b: Node, ghost h: nat) returns (r: Node)
    requires |parent.children| == |parent.entries| + 1
    requires Shape(parent, h + 1) && |parent.entries| <= MAX_ENTRIES && i < |parent.entries|
    requires Child(a, h) && Child(b, h)
    requires Contents(a) + [e] + Contents(b)
          == Contents(parent.children[i]) + [parent.entries[i]] + Contents(parent.children[i + 1])
    ensures Balanced(r, h + 1) && Contents(r) == Contents(parent)
    ensures r.entries == parent.entries[i := e]
    ensures r.children == parent.children[i := a][i + 1 := b]
  {
    hide Contents, Left, Right, Shape, Balanced;
    ShapeFacts(parent, h + 1);
    var m := parent.(entries := parent.entries[i := e], children := parent.children[i := a][i + 1 := b]);
    ContentsAroundPair(parent, i);
    assert m.children == parent.children[..i] + [a] + ([b] + parent.children[i + 2..]);
    assert m.entries == parent.entries[..i] + ([e] + parent.entries[i + 1..]);
    AssembledPair(parent.children[..i], parent.entries[..i], a, e, b,
                  parent.entries[i + 1..], parent.children[i + 2..], m);
    assert forall c :: c in m.children ==> c == a || c == b || c in parent.children;
    ShapeOf(m, h);
    r := RefreshMaxEnd(m, h + 1);
  }

  lemma RotateContents(s: seq<Entry>, m: Entry, t: seq<Entry>, sep: Entry, c: seq<Entry>)
    ensures (s + [m] + t) + [sep] + c == s + [m] + (t + [sep] + c)
  {
  }

  /** Rotate the previous sibling's last entry up and the separator down into child `i`. */
  method BorrowFromPrevious(parent: Node, i: nat, ghost h: nat) returns (r: Node)
    requires |parent.children| == |parent.entries| + 1
    requires Shape(parent, h + 1) && |parent.entries| <= MAX_ENTRIES && 0 < i <= |parent.entries|
    requires |parent.children[i].entries| == 1 && |parent.children[i - 1].entries| >= 2
    ensures Balanced(r, h + 1) && Contents(r) == Contents(parent)
    ensures |r.entries| == |parent.entries| && |r.children| == |parent.children|
    ensures |r.children[i].entries| == 2
    ensures forall x :: x in Contents(parent.children[i]) ==> x in Contents(r.children[i])
  {
    hide Contents, Left, Right, Shape, Balanced;
    ShapeFacts(parent, h + 1);
    var child, sibling, separator := parent.children[i], parent.children[i - 1], parent.entries[i - 1];
    var moved := sibling.entries[|sibling.entries| - 1];
    BalancedShape(child, h);
    BalancedShape(sibling, h);
    EndSubtrees(sibling, h);
    DropLastContents(sibling, h);
    AddFirstContents(child, LastChild(sibling), separator, h);
    var child' := RefreshMaxEnd(AddFirst(child, LastChild(sibling), separator), h);
    var sibling' := RefreshMaxEnd(DropLast(sibling), h);
    RotateContents(Contents(sibling'), moved, SubContents(LastChild(sibling)), separator, Contents(child));
    r := ReplacePair(parent, i - 1, sibling', moved, child', h);
  }

  /** Rotate the next sibling's first entry up and the separator down into child `i`. */
  method BorrowFromNext(parent: Node, i: nat, ghost h: nat) returns (r: Node)
    requires |parent.children| == |parent.entries| + 1
    requires Shape(parent, h + 1) && |parent.entries| <= MAX_ENTRIES && i < |parent.entries|
    requires |parent.children[i].entries| == 1 && |parent.children[i + 1].entries| >= 2
    ensures Balanced(r, h + 1) && Contents(r) == Contents(parent)
    ensures |r.entries| == |parent.entries| && |r.children| == |parent.children|
    ensures |r.children[i].entries| == 2
    ensures forall x :: x in Contents(parent.children[i]) ==> x in Contents(r.children[i])
  {
    hide Contents, Left, Right, Shape, Balanced;
    ShapeFacts(parent, h + 1);
    var child, sibling, separator := parent.children[i], parent.children[i + 1], parent.entries[i];
    var moved := sibling.entries[0];
    BalancedShape(child, h);
    BalancedShape(sibling, h);
    EndSubtrees(sibling, h);
    DropFirstContents(sibling, h);
    AddLastContents(child, separator, FirstChild(sibling), h);
    var child' := RefreshMaxEnd(AddLast(child, separator, FirstChild(sibling)), h);
    var sibling' := RefreshMaxEnd(DropFirst(sibling), h);
    RotateContents(Contents(child), separator, SubContents(FirstChild(sibling)), moved, Contents(sibling'));
    r := ReplacePair(parent, i, child', moved, sibling', h);
  }

  lemma BalancedShape(n: Node, h: nat)
    requires Balanced(n, h)
    ensures Shape(n, h) && |n.entries| <= MAX_ENTRIES
    ensures n.isLeaf <==> h == 0
  {
  }

  function Merged(a: Node, e: Entry, b: Node): (r: Node) {
    a.(entries := a.entries + [e] + b.entries, children := if a.isLeaf then a.children else a.children + b.children)
  }

  lemma MergedContents(a: Node, e: Entry, b: Node, h: nat)
    requires Shape(a, h) && Shape(b, h)
    ensures Contents(Merged(a, e, b)) == Contents(a) + [e] + Contents(b)
    ensures Shape(Merged(a, e, b), h)
  {
    if h > 0 {
      MergedInternal(a, e, b, h - 1);
    }
  }

  lemma MergedInternal(a: Node, e: Entry, b: Node, h: nat)
    requires Shape(a, h + 1) && Shape(b, h + 1) && !a.isLeaf
    ensures Contents(Merged(a, e, b)) == Contents(a) + [e] + Contents(b)
    ensures Shape(Merged(a, e, b), h + 1)
  {
    hide Contents, Shape, Balanced;
    var m := Merged(a, e, b);
    ShapeFacts(a, h + 1);
    ShapeFacts(b, h + 1);
    MergedContentsInternal(a, e, b);
    assert forall c :: c in m.children ==> c in a.children || c in b.children;
    ShapeOf(m, h);
  }

  lemma MergedContentsInternal(a: Node, e: Entry, b: Node)
    requires !a.isLeaf && |a.children| == |a.entries| + 1
    requires !b.isLeaf && |b.children| == |b.entries| + 1
    ensures Contents(Merged(a, e, b)) == Contents(a) + [e] + Contents(b)
  {
    hide Contents, Left, Right;
    var m, k := Merged(a, e, b), |a.entries|;
    ContentsToLast(a);
    ContentsFromFirst(b);
    assert m.children == a.children[..k] + [a.children[k]] + ([b.children[0]] + b.children[1..]);
    assert m.entries == a.entries + ([e] + b.entries);
    AssembledPair(a.children[..k], a.entries, a.children[k], e, b.children[0], b.entries, b.children[1..], m);
    JoinHalves(Left(a.children[..k], a.entries), Contents(a.children[k]), e,
               Contents(b.children[0]), Right(b.entries, b.children[1..]));
  }

  lemma ContentsToLast(n: Node)
    requires !n.isLeaf && |n.children| == |n.entries| + 1
    ensures var k := |n.entries|; Contents(n) == Left(n.children[..k], n.entries) + Contents(n.children[k])
  {
    hide Contents, Left, Right;
    var k := |n.entries|;
    assert n.children == n.children[..k] + [n.children[k]] + [] && n.entries == n.entries + [];
    Assembled(n.children[..k], n.entries, n.children[k], [], [], n);
    EmptySides();
  }

  lemma ContentsFromFirst(n: Node)
    requires !n.isLeaf && |n.children| == |n.entries| + 1
    ensures Contents(n) == Contents(n.children[0]) + Right(n.entries, n.children[1..])
  {
    hide Contents, Left, Right;
    assert n.children == [] + [n.children[0]] + n.children[1..] && n.entries == [] + n.entries;
    Assembled([], [], n.children[0], n.entries, n.children[1..], n);
    EmptySides();
  }

  lemma JoinHalves(l: seq<Entry>, a: seq<Entry>, e: Entry, b: seq<Entry>, r: seq<Entry>)
    ensures l + (a + [e] + b) + r == (l + a) + [e] + (b + r)
  {
  }

  /** Fold separator `i` and child `i + 1` into child `i`. */
  method MergeChildren(parent: Node, i: nat, ghost h: nat) returns (r: Node)
    requires |parent.children| == |parent.entries| + 1
    requires Shape(parent, h + 1) && |parent.entries| <= MAX_ENTRIES && i < |parent.entries|
    requires |parent.children[i].entries| == 1 && |parent.children[i + 1].entries| == 1
    ensures Balanced(r, h + 1) && Contents(r) == Contents(parent)
    ensures |r.entries| == |parent.entries| - 1 && |r.children| == |r.entries| + 1
    ensures |r.children[i].entries| == 3
    ensures Contents(r.children[i])
         == Contents(parent.children[i]) + [parent.entries[i]] + Contents(parent.children[i + 1])
  {
    hide Contents, Left, Right, Shape, Balanced;
    ShapeFacts(parent, h + 1);
    var left, right := parent.children[i], parent.children[i + 1];
    BalancedShape(left, h);
    BalancedShape(right, h);
    MergedContents(left, parent.entries[i], right, h);
    var merged := RefreshMaxEnd(Merged(left, parent.entries[i], right), h);
    var m := parent.(entries := parent.entries[..i] + parent.entries[i + 1..],
                     children := parent.children[..i] + [merged] + parent.children[i + 2..]);
    ContentsAroundPair(parent, i);
    Assembled(parent.children[..i], parent.entries[..i], merged, parent.entries[i + 1..], parent.children[i + 2..], m);
    assert forall c :: c in m.children ==> c == merged || c in parent.children;
    ShapeOf(m, h);
    r := RefreshMaxEnd(m, h + 1);
  }

  /**
   Make sure the child to descend into has an entry to spare. The extreme removals use the
   same choice at the last and the first child.
   */
  method Refill(n: Node, k: nat, ghost h: nat) returns (m: Node, k': nat)
    requires |n.children| == |n.entries| + 1
    requires Balanced(n, h + 1) && n.entries != [] && k <= |n.entries|
    ensures Balanced(m, h + 1) && Contents(m) == Contents(n)
    ensures |m.entries| >= |n.entries| - 1 && |m.children| == |m.entries| + 1
    ensures k' <= |m.entries| && |m.children[k'].entries| >= 2
    ensures forall x :: x in Contents(n.children[k]) ==> x in Contents(m.children[k'])
    ensures k == 0 ==> k' == 0
    ensures k == |n.entries| ==> k' == |m.entries|
  {
    hide Contents, Left, Right, Shape, Balanced;
    BalancedShape(n, h + 1);
    ShapeFacts(n, h + 1);
    m, k' := n, k;
    assert forall i :: 0 <= i < |n.children| ==> n.children[i] in n.children;
    if |n.children[k].entries| == 1 {
      if k > 0 && |n.children[k - 1].entries| >= 2 {
        m := BorrowFromPrevious(n, k, h);
      } else if k < |n.entries| && |n.children[k + 1].entries| >= 2 {
        m := BorrowFromNext(n, k, h);
      } else if k < |n.entries| {
        m := MergeChildren(n, k, h);
      } else {
        m := MergeChildren(n, k - 1, h);
        k' := k - 1;
      }
    }
  }

  // ---------------------------------------------------------------- extreme entries

  method RemoveMaximum(n: Node, ghost h: nat) returns (r: Node, e: Entry)
    requires Balanced(n, h) && n.entries != []
    ensures Balanced(r, h) && |r.entries| >= |n.entries| - 1
    ensures Contents(n) == Contents(r) + [e]
    decreases h
  {
    hide Contents, Left, Right, Shape, Balanced;
    BalancedShape(n, h);
    if n.isLeaf {
      e := n.entries[|n.entries| - 1];
      DropLastContents(n, h);
      r := RefreshMaxEnd(DropLast(n), h);
      return;
    }
    var m, k := Refill(n, |n.entries|, h - 1);
    BalancedShape(m, h);
    ShapeFacts(m, h);
    var c;
    c, e := RemoveMaximum(m.children[k], h - 1);
    var m' := m.(children := m.children[k := c]);
    ReplacedChildShape(m, k, c, h - 1);
    ContentsAround(m, k);
    ContentsAround(m', k);
    assert m'.children[..k] == m.children[..k] && m'.children[k + 1..] == [] && m.children[k + 1..] == [];
    assert m.entries[k..] == [];
    EmptySides();
    r := RefreshMaxEnd(m', h);
  }

  method RemoveMinimum(n: Node, ghost h: nat) returns (r: Node, e: Entry)
    requires Balanced(n, h) && n.entries != []
    ensures Balanced(r, h) && |r.entries| >= |n.entries| - 1
    ensures Contents(n) == [e] + Contents(r)
    decreases h
  {
    hide Contents, Left, Right, Shape, Balanced;
    BalancedShape(n, h);
    if n.isLeaf {
      e := n.entries[0];
      DropFirstContents(n, h);
      r := RefreshMaxEnd(DropFirst(n), h);
      return;
    }
    var m, k := Refill(n, 0, h - 1);
    BalancedShape(m, h);
    ShapeFacts(m, h);
    var c;
    c, e := RemoveMinimum(m.children[0], h - 1);
    var m' := m.(children := m.children[0 := c]);
    ReplacedChildShape(m, 0, c, h - 1);
    ContentsAround(m, 0);
    ContentsAround(m', 0);
    assert m'.children[..0] == [] && m.children[..0] == [] && m.entries[..0] == [];
    assert m'.children[1..] == m.children[1..];
    EmptySides();
    r := RefreshMaxEnd(m', h);
  }

  // ---------------------------------------------------------------- erasure

  /** First entry that is not below the target. */
  method ErasePosition(cmp: Comparator, es: seq<Entry>, t: Entry) returns (k: nat)
    ensures k <= |es|
    ensures forall j :: 0 <= j < k ==> EntryLess(cmp, es[j], t)
    ensures k < |es| ==> !EntryLess(cmp, es[k], t)
  {
    k := 0;
    while k < |es| && EntryLess(cmp, es[k], t)
      invariant k <= |es|
      invariant forall j :: 0 <= j < k ==> EntryLess(cmp, es[j], t)
    {
      k := k + 1;
    }
  }

  /** A target cannot be left of a smaller entry or right of one that is not smaller. */
  lemma NotBeside(cmp: Comparator, l: seq<Entry>, r: seq<Entry>, t: Entry)
    requires LegalComparator(cmp) && Sorted(cmp, l) && Sorted(cmp, r)
    requires l != [] ==> EntryLess(cmp, l[|l| - 1], t)
    requires r != [] ==> !EntryLess(cmp, r[0], t)
    ensures t !in l
    ensures t in r ==> r[0] == t
  {
    forall j | 0 <= j < |l|
      ensures l[j] != t
    {
      LessIsStrictTotalOrder(cmp, l[|l| - 1], t, t);
    }
    forall j | 0 < j < |r|
      ensures r[j] != t
    {
      assert EntryLess(cmp, r[0], r[j]);
    }
  }

  /** A target that is not a separator lies below the child the scan stops at. */
  lemma Locate(cmp: Comparator, n: Node, k: nat, t: Entry)
    requires LegalComparator(cmp) && !n.isLeaf && |n.children| == |n.entries| + 1 && k <= |n.entries|
    requires Sorted(cmp, Contents(n)) && t in Contents(n)
    requires k > 0 ==> EntryLess(cmp, n.entries[k - 1], t)
    requires k < |n.entries| ==> n.entries[k] != t && !EntryLess(cmp, n.entries[k], t)
    ensures t in Contents(n.children[k])
  {
    hide Contents, Left, Right, Sorted, EntryLess;
    ContentsAround(n, k);
    var l, c := Left(n.children[..k], n.entries[..k]), Contents(n.children[k]);
    var r := Right(n.entries[k..], n.children[k + 1..]);
    SortedParts(cmp, l + c, r);
    SortedParts(cmp, l, c);
    RightStartsWith(n.entries[k..], n.children[k + 1..]);
    if k > 0 {
      LeftEndsWith(n.children[..k], n.entries[..k]);
    } else {
      EmptySides();
      assert n.children[..0] == [] && n.entries[..0] == [];
    }
    NotBeside(cmp, l, r, t);
  }

  lemma SortedExcludes(cmp: Comparator, l: seq<Entry>, c: seq<Entry>, t: Entry)
    requires LegalComparator(cmp) && Sorted(cmp, l + c) && t in c
    ensures t !in l
  {
    SortedParts(cmp, l, c);
    LessIsStrictTotalOrder(cmp, t, t, t);
  }

  /** Erasure below child `k` is erasure from the whole. */
  lemma EraseBelow(cmp: Comparator, n: Node, k: nat, t: Entry, c: Node, r: Node)
    requires LegalComparator(cmp) && !n.isLeaf && |n.children| == |n.entries| + 1 && k <= |n.entries|
    requires Sorted(cmp, Contents(n)) && t in Contents(n.children[k])
    requires Contents(c) == Remove(Contents(n.children[k]), t)
    requires r == n.(children := n.children[k := c])
    ensures Contents(r) == Remove(Contents(n), t)
  {
    hide Contents, Left, Right, Remove, Sorted;
    var l, right := Left(n.children[..k], n.entries[..k]), Right(n.entries[k..], n.children[k + 1..]);
    ContentsAround(n, k);
    SortedParts(cmp, l + Contents(n.children[k]), right);
    SortedExcludes(cmp, l, Contents(n.children[k]), t);
    RemoveMiddle(l, Contents(n.children[k]), right, t);
    assert r.children == n.children[..k] + [c] + n.children[k + 1..];
    assert r.entries == n.entries[..k] + n.entries[k..];
    Assembled(n.children[..k], n.entries[..k], c, n.entries[k..], n.children[k + 1..], r);
  }

  lemma RemoveSeparator(cmp: Comparator, l: seq<Entry>, a: seq<Entry>, t: Entry, b: seq<Entry>, r: seq<Entry>)
    requires LegalComparator(cmp) && Sorted(cmp, l + (a + [t] + b) + r)
    ensures Remove(l + (a + [t] + b) + r, t) == l + (a + b) + r
  {
    var before := l + a;
    assert l + (a + [t] + b) + r == before + [t] + (b + r);
    SortedParts(cmp, before + [t], b + r);
    SortedExcludes(cmp, before, [t], t);
    RemoveMiddle(before, [t], b + r, t);
    assert Remove([t], t) == [];
    assert before + [] + (b + r) == l + (a + b) + r;
  }

  /** Put a neighbouring entry in the place of a separator. */
  method ReplaceSeparator(cmp: Comparator, n: Node, k: nat, a: Node, e: Entry, b: Node, ghost h: nat) returns (r: Node)
    requires |n.children| == |n.entries| + 1
    requires LegalComparator(cmp)
    requires Balanced(n, h + 1) && k < |n.entries| && Sorted(cmp, Contents(n))
    requires Child(a, h) && Child(b, h)
    requires Contents(a) + [e] + Contents(b) == Contents(n.children[k]) + Contents(n.children[k + 1])
    ensures Balanced(r, h + 1) && |r.entries| == |n.entries|
    ensures Contents(r) == Remove(Contents(n), n.entries[k])
  {
    hide Contents, Left, Right, Shape, Balanced, Remove, Sorted;
    BalancedShape(n, h + 1);
    ShapeFacts(n, h + 1);
    var m := n.(entries := n.entries[k := e], children := n.children[k := a][k + 1 := b]);
    ContentsAroundPair(n, k);
    RemoveSeparator(cmp, Left(n.children[..k], n.entries[..k]), Contents(n.children[k]), n.entries[k],
                    Contents(n.children[k + 1]), Right(n.entries[k + 1..], n.children[k + 2..]));
    assert m.children == n.children[..k] + [a] + ([b] + n.children[k + 2..]);
    assert m.entries == n.entries[..k] + ([e] + n.entries[k + 1..]);
    AssembledPair(n.children[..k], n.entries[..k], a, e, b, n.entries[k + 1..], n.children[k + 2..], m);
    assert forall c :: c in m.children ==> c == a || c == b || c in n.children;
    ShapeOf(m, h);
    r := RefreshMaxEnd(m, h + 1);
  }

  method EraseFromLeaf(cmp: Comparator, n: Node, k: nat) returns (r: Node)
    requires LegalComparator(cmp)
    requires Balanced(n, 0) && k < |n.entries| && Sorted(cmp, Contents(n))
    ensures Balanced(r, 0) && |r.entries| == |n.entries| - 1
    ensures Contents(r) == Remove(Contents(n), n.entries[k])
  {
    var es := n.entries;
    assert es == [] + (es[..k] + [es[k]] + es[k + 1..]) + [];
    RemoveSeparator(cmp, [], es[..k], es[k], es[k + 1..], []);
    r := RefreshMaxEnd(n.(entries := es[..k] + es[k + 1..]), 0);
  }

  lemma LeafHolds(cmp: Comparator, n: Node, k: nat, t: Entry)
    requires LegalComparator(cmp) && n.isLeaf && k <= |n.entries|
    requires Sorted(cmp, Contents(n)) && t in Contents(n)
    requires forall j :: 0 <= j < k ==> EntryLess(cmp, n.entries[j], t)
    requires k < |n.entries| ==> !EntryLess(cmp, n.entries[k], t)
    ensures k < |n.entries| && n.entries[k] == t
  {
    assert n.entries == n.entries[..k] + n.entries[k..];
    SortedParts(cmp, n.entries[..k], n.entries[k..]);
    NotBeside(cmp, n.entries[..k], n.entries[k..], t);
  }

  /** Erase the target below a child made ready for it. */
  method EraseInChild(cmp: Comparator, m: Node, k: nat, t: Entry, ghost h: nat) returns (r: Node)
    requires LegalComparator(cmp)
    requires Balanced(m, h + 1) && k <= |m.entries| && |m.children| == |m.entries| + 1
    requires |m.children[k].entries| >= 2
    requires Sorted(cmp, Contents(m)) && t in Contents(m.children[k])
    ensures Balanced(r, h + 1) && |r.entries| == |m.entries|
    ensures Contents(r) == Remove(Contents(m), t)
    decreases h, 1
  {
    hide Contents, Left, Right, Shape, Balanced, Remove, Sorted;
    BalancedShape(m, h + 1);
    ShapeFacts(m, h + 1);
    ChildSorted(cmp, m, k);
    var c := EraseEntry(cmp, m.children[k], t, h);
    var m' := m.(children := m.children[k := c]);
    EraseBelow(cmp, m, k, t, c, m');
    ReplacedChildShape(m, k, c, h);
    r := RefreshMaxEnd(m', h + 1);
  }

  /** Erase a separator of an internal node. */
  method EraseSeparator(cmp: Comparator, n: Node, k: nat, ghost h: nat) returns (r: Node)
    requires |n.children| == |n.entries| + 1
    requires LegalComparator(cmp)
    requires Balanced(n, h + 1) && k < |n.entries| && Sorted(cmp, Contents(n))
    ensures Balanced(r, h + 1) && |r.entries| >= |n.entries| - 1
    ensures Contents(r) == Remove(Contents(n), n.entries[k])
    decreases h, 2
  {
    hide Contents, Left, Right, Shape, Balanced, Remove, Sorted;
    BalancedShape(n, h + 1);
    ShapeFacts(n, h + 1);
    var left, right, t := n.children[k], n.children[k + 1], n.entries[k];
    assert left in n.children && right in n.children;
    if |left.entries| >= 2 {
      var a, e := RemoveMaximum(left, h);
      r := ReplaceSeparator(cmp, n, k, a, e, right, h);
    } else if |right.entries| >= 2 {
      var b, e := RemoveMinimum(right, h);
      assert Contents(left) + [e] + Contents(b) == Contents(left) + ([e] + Contents(b));
      r := ReplaceSeparator(cmp, n, k, left, e, b, h);
    } else {
      var m := MergeChildren(n, k, h);
      assert t in [t] && t in Contents(m.children[k]);
      r := EraseInChild(cmp, m, k, t, h);
    }
  }

  /** Erase one stored entry from a subtree, refilling children on the way down. */
  method EraseEntry(cmp: Comparator, n: Node, t: Entry, ghost h: nat) returns (r: Node)
    requires LegalComparator(cmp)
    requires Balanced(n, h) && n.entries != []
    requires Sorted(cmp, Contents(n)) && t in Contents(n)
    ensures Balanced(r, h) && |r.entries| >= |n.entries| - 1
    ensures Contents(r) == Remove(Contents(n), t)
    decreases h, 0
  {
    hide Contents, Left, Right, Shape, Balanced, Remove, Sorted, EntryLess;
    BalancedShape(n, h);
    var k := ErasePosition(cmp, n.entries, t);
    if n.isLeaf {
      LeafHolds(cmp, n, k, t);
    }
    if k < |n.entries| && n.entries[k] == t {
      if n.isLeaf {
        r := EraseFromLeaf(cmp, n, k);
      } else {
        r := EraseSeparator(cmp, n, k, h - 1);
      }
      return;
    }
    ShapeFacts(n, h);
    Locate(cmp, n, k, t);
    var m, k' := Refill(n, k, h - 1);
    r := EraseInChild(cmp, m, k', t, h - 1);
  }

  /** Erasure at the root: an emptied root gives way to its only child, or to nothing. */
  method EraseRoot(cmp: Comparator, root: Node, t: Entry, ghost h: nat) returns (r: Option<Node>, ghost h': nat)
    requires LegalComparator(cmp)
    requires Child(root, h)
    requires Sorted(cmp, Contents(root)) && t in Contents(root)
    ensures r.Some? ==> Child(r.value, h') && h - 1 <= h' <= h
    ensures (if r.Some? then Contents(r.value) else []) == Remove(Contents(root), t)
  {
    hide Contents, Left, Right, Shape, Balanced, Remove, Sorted;
    var top := EraseEntry(cmp, root, t, h);
    BalancedShape(top, h);
    h' := h;
    if top.entries == [] {
      if top.isLeaf {
        LeafContents(top);
        r := None;
      } else {
        ShapeFacts(top, h);
        OnlyChild(top.children[0], top);
        assert top.children[0] in top.children;
        h' := h - 1;
        r := Some(top.children[0]);
      }
    } else {
      r := Some(top);
    }
  }
}
