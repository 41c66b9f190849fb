/**
 Nodes of the degree-2 B-tree. A node is uniquely owned by its parent, so a subtree is a
 value here; the operations rebuild the nodes they change.

 `Contents` is the in-order sequence. `Balanced` is the whole structural invariant: entry
 and child counts, uniform leaf depth, and the exact subtree maximum at every node.
 */
module IntervalNodes {
  import opened Intervals
  import opened EntryOrder

  const MAX_ENTRIES: nat := 3

  datatype Node = Node(entries: seq<Entry>, children: seq<Node>, maxEnd: Int64, isLeaf: bool)

  // ---------------------------------------------------------------- contents

  ghost function Contents(n: Node): (s: seq<Entry>)
    decreases n, 1
  {
    if n.isLeaf || n.children == [] then n.entries
    else Contents(n.children[0]) + Right(n.entries, n.children[1..])
  }

  /** Separators each followed by the subtree to their right. */
  ghost function Right(es: seq<Entry>, cs: seq<Node>): (s: seq<Entry>)
    decreases cs, 0
  {
    if es == [] || cs == [] then []
    else [es[0]] + Contents(cs[0]) + Right(es[1..], cs[1..])
  }

  /** Subtrees each followed by the separator to their right. */
  ghost function Left(cs: seq<Node>, es: seq<Entry>): (s: seq<Entry>)
    decreases cs, 0
  {
    if es == [] || cs == [] then []
    else Contents(cs[0]) + [es[0]] + Left(cs[1..], es[1..])
  }

  lemma {:induction false} LeftAppend(cs: seq<Node>, es: seq<Entry>, c: Node, e: Entry)
    requires |cs| == |es|
    ensures Left(cs + [c], es + [e]) == Left(cs, es) + (Contents(c) + [e])
  {
    if cs == [] {
      assert cs + [c] == [c] && es + [e] == [e];
      assert [c][1..] == [] && [e][1..] == [];
    } else {
      LeftAppend(cs[1..], es[1..], c, e);
      assert (cs + [c])[1..] == cs[1..] + [c];
      assert (es + [e])[1..] == es[1..] + [e];
    }
  }

  /** In-order contents around any child. */
  lemma {:induction false} Split(cs: seq<Node>, es: seq<Entry>, i: nat)
    requires |cs| == |es| + 1 && i <= |es|
    ensures Contents(cs[0]) + Right(es, cs[1..])
         == Left(cs[..i], es[..i]) + Contents(cs[i]) + Right(es[i..], cs[i + 1..])
  {
    hide Contents, Left, Right;
    if i == 0 {
      EmptySides();
      assert cs[..0] == [] && es[0..] == es && es[..0] == [];
    } else {
      Split(cs, es, i - 1);
      LeftAppend(cs[..i - 1], es[..i - 1], cs[i - 1], es[i - 1]);
      assert cs[..i] == cs[..i - 1] + [cs[i - 1]];
      assert es[..i] == es[..i - 1] + [es[i - 1]];
      assert es[i - 1..] == [es[i - 1]] + es[i..];
      assert cs[i..] == [cs[i]] + cs[i + 1..];
      RightCons(es[i - 1], cs[i], es[i..], cs[i + 1..]);
    }
  }

  lemma ContentsAround(n: Node, i: nat)
    requires !n.isLeaf && |n.children| == |n.entries| + 1 && i <= |n.entries|
    ensures Contents(n)
         == Left(n.children[..i], n.entries[..i]) + Contents(n.children[i]) + Right(n.entries[i..], n.children[i + 1..])
  {
    Split(n.children, n.entries, i);
  }

  /** Two neighbouring children and the separator between them. */
  lemma ContentsAroundPair(n: Node, i: nat)
    requires !n.isLeaf && |n.children| == |n.entries| + 1 && i < |n.entries|
    ensures Contents(n)
         == Left(n.children[..i], n.entries[..i])
          + (Contents(n.children[i]) + [n.entries[i]] + Contents(n.children[i + 1]))
          + Right(n.entries[i + 1..], n.children[i + 2..])
  {
    hide Contents, Left, Right;
    ContentsAround(n, i);
    assert n.entries[i..] == [n.entries[i]] + n.entries[i + 1..];
    assert n.children[i + 1..] == [n.children[i + 1]] + n.children[i + 2..];
    RightCons(n.entries[i], n.children[i + 1], n.entries[i + 1..], n.children[i + 2..]);
  }

  /** A node put together from what lies left of, at, and right of one child. */
  lemma Assembled(pc: seq<Node>, pe: seq<Entry>, c: Node, se: seq<Entry>, sc: seq<Node>, n: Node)
    requires |pc| == |pe| && |se| == |sc|
    requires !n.isLeaf && n.children == pc + [c] + sc && n.entries == pe + se
    ensures Contents(n) == Left(pc, pe) + Contents(c) + Right(se, sc)
  {
    hide Contents, Left, Right;
    ContentsAround(n, |pc|);
    assert n.children[..|pc|] == pc && n.entries[..|pc|] == pe;
    assert n.entries[|pc|..] == se && n.children[|pc| + 1..] == sc;
  }

  lemma EmptySides()
    ensures Left([], []) == [] && Right([], []) == []
  {
  }

  lemma RightCons(e: Entry, c: Node, es: seq<Entry>, cs: seq<Node>)
    ensures Right([e] + es, [c] + cs) == [e] + Contents(c) + Right(es, cs)
  {
    assert ([e] + es)[1..] == es && ([c] + cs)[1..] == cs;
  }

  lemma AssembledPair(pc: seq<Node>, pe: seq<Entry>, a: Node, e: Entry, b: Node, se: seq<Entry>, sc: seq<Node>, n: Node)
    requires |pc| == |pe| && |se| == |sc|
    requires !n.isLeaf && n.children == pc + [a] + ([b] + sc) && n.entries == pe + ([e] + se)
    ensures Contents(n) == Left(pc, pe) + (Contents(a) + [e] + Contents(b)) + Right(se, sc)
  {
    hide Contents, Left, Right;
    Assembled(pc, pe, a, [e] + se, [b] + sc, n);
    RightCons(e, b, se, sc);
  }

  // ---------------------------------------------------------------- subtree maximum

  ghost function MaxEnd(s: seq<Entry>): (m: Int64) {
    if s == [] then INT64_MIN else Max(MaxEnd(s[..|s| - 1]), s[|s| - 1].range.end)
  }

  ghost function ChildMax(cs: seq<Node>): (m: Int64) {
    if cs == [] then INT64_MIN else Max(ChildMax(cs[..|cs| - 1]), cs[|cs| - 1].maxEnd)
  }

  /** `MaxEnd` is the true maximum: an upper bound that some entry reaches. */
  lemma {:induction false} MaxEndIsMaximum(s: seq<Entry>)
    ensures forall i :: 0 <= i < |s| ==> s[i].range.end <= MaxEnd(s)
    ensures s != [] ==> exists i :: 0 <= i < |s| && s[i].range.end == MaxEnd(s)
  {
    if s != [] {
      var k := |s| - 1;
      MaxEndIsMaximum(s[..k]);
      var last: Int64 := s[k].range.end;
      if MaxEnd(s) != last {
        var init := s[..k];
        assert init == [] ==> MaxEnd(init) == INT64_MIN;
        var i :| 0 <= i < |init| && init[i].range.end == MaxEnd(init);
        assert s[i] == init[i];
      }
    }
  }

  lemma {:induction false} MaxEndConcat(a: seq<Entry>, b: seq<Entry>)
    ensures MaxEnd(a + b) == Max(MaxEnd(a), MaxEnd(b))
  {
    if b == [] {
      assert a + b == a;
    } else {
      MaxEndConcat(a, b[..|b| - 1]);
      assert (a + b)[..|a + b| - 1] == a + b[..|b| - 1];
    }
  }

  lemma {:induction false} ChildMaxConcat(a: seq<Node>, b: seq<Node>)
    ensures ChildMax(a + b) == Max(ChildMax(a), ChildMax(b))
  {
    if b == [] {
      assert a + b == a;
    } else {
      ChildMaxConcat(a, b[..|b| - 1]);
      assert (a + b)[..|a + b| - 1] == a + b[..|b| - 1];
    }
  }

  ghost predicate ExactMax(n: Node) {
    n.maxEnd == MaxEnd(Contents(n))
  }

  lemma {:induction false} RightMax(es: seq<Entry>, cs: seq<Node>)
    requires |es| == |cs|
    requires forall c :: c in cs ==> ExactMax(c)
    ensures MaxEnd(Right(es, cs)) == Max(MaxEnd(es), ChildMax(cs))
  {
    if es != [] {
      RightMax(es[1..], cs[1..]);
      MaxEndConcat([es[0]] + Contents(cs[0]), Right(es[1..], cs[1..]));
      MaxEndConcat([es[0]], Contents(cs[0]));
      MaxEndConcat([es[0]], es[1..]);
      assert es == [es[0]] + es[1..];
      ChildMaxConcat([cs[0]], cs[1..]);
      assert cs == [cs[0]] + cs[1..];
      assert ChildMax([cs[0]]) == cs[0].maxEnd by {
        assert [cs[0]][..0] == [];
      }
      assert ExactMax(cs[0]);
    }
  }

  lemma ContentsMax(n: Node)
    requires !n.isLeaf && |n.children| == |n.entries| + 1
    requires forall c :: c in n.children ==> ExactMax(c)
    ensures MaxEnd(Contents(n)) == Max(MaxEnd(n.entries), ChildMax(n.children))
  {
    var first, rest := n.children[0], n.children[1..];
    assert n.children == [first] + rest;
    RightMax(n.entries, rest);
    MaxEndConcat(Contents(first), Right(n.entries, rest));
    ChildMaxConcat([first], rest);
    assert ChildMax([first]) == first.maxEnd by {
      assert [first][..0] == [];
    }
    assert ExactMax(first);
  }

  // ---------------------------------------------------------------- the invariant

  /** A balanced node is a full subtree of height `h`; the node itself may be underfull. */
  ghost predicate Balanced(n: Node, h: nat)
    decreases h, 1
  {
    Shape(n, h) && |n.entries| <= MAX_ENTRIES && ExactMax(n)
  }

  /** Everything but the node's own maximum and upper size bound. */
  ghost predicate Shape(n: Node, h: nat)
    decreases h, 0
  {
    && (n.isLeaf <==> h == 0)
    && (if h == 0 then n.children == []
        else |n.children| == |n.entries| + 1
             && forall i :: 0 <= i < |n.children| ==> Balanced(n.children[i], h - 1) && |n.children[i].entries| >= 1)
  }

  ghost predicate Child(n: Node, h: nat) {
    Balanced(n, h) && |n.entries| >= 1
  }

  lemma ShapeOf(n: Node, h: nat)
    requires !n.isLeaf && |n.children| == |n.entries| + 1
    requires forall c :: c in n.children ==> Child(c, h)
    ensures Shape(n, h + 1)
  {
    forall i | 0 <= i < |n.children|
      ensures Balanced(n.children[i], h) && |n.children[i].entries| >= 1
    {
      assert n.children[i] in n.children;
    }
  }

  lemma ChildrenOf(n: Node, h: nat)
    requires Shape(n, h + 1)
    ensures forall c :: c in n.children ==> Child(c, h) && ExactMax(c)
  {
  }

  /** Changing a node's recorded maximum changes neither its contents nor its shape. */
  lemma MaximumIsMetadata(n: Node, r: Node, h: nat)
    requires r.entries == n.entries && r.children == n.children && r.isLeaf == n.isLeaf
    ensures Contents(r) == Contents(n)
    ensures Shape(n, h) ==> Shape(r, h)
  {
  }

  lemma LeafContents(n: Node)
    requires n.isLeaf
    ensures Contents(n) == n.entries
  {
  }

  method RefreshMaxEnd(n: Node, ghost h: nat) returns (r: Node)
    requires Shape(n, h) && |n.entries| <= MAX_ENTRIES
    ensures Balanced(r, h)
    ensures r.entries == n.entries && r.children == n.children && r.isLeaf == n.isLeaf
    ensures Contents(r) == Contents(n)
  {
    hide Contents, Left, Right;
    var maximum := EntriesMax(n.entries);
    maximum := ChildrenMax(n.children, maximum);
    if h > 0 {
      ChildrenOf(n, h - 1);
      ContentsMax(n);
    } else {
      LeafContents(n);
    }
    r := n.(maxEnd := maximum);
    MaximumIsMetadata(n, r, h);
  }

  method EntriesMax(es: seq<Entry>) returns (m: Int64)
    ensures m == MaxEnd(es)
  {
    m := INT64_MIN;
    for i := 0 to |es|
      invariant m == MaxEnd(es[..i])
    {
      m := Max(m, es[i].range.end);
      assert es[..i + 1][..i] == es[..i];
    }
    assert es[..|es|] == es;
  }

  method ChildrenMax(cs: seq<Node>, start: Int64) returns (m: Int64)
    ensures m == Max(start, ChildMax(cs))
  {
    m := start;
    for i := 0 to |cs|
      invariant m == Max(start, ChildMax(cs[..i]))
    {
      m := Max(m, cs[i].maxEnd);
      assert cs[..i + 1][..i] == cs[..i];
    }
    assert cs[..|cs|] == cs;
  }

  // ---------------------------------------------------------------- splitting

  /** The two halves and the promoted entry, before their maxima are recomputed. */
  lemma HalvesOf(c: Node, l: Node, r: Node)
    requires !c.isLeaf && |c.entries| == MAX_ENTRIES && |c.children| == MAX_ENTRIES + 1
    requires !l.isLeaf && l.entries == c.entries[..1] && l.children == c.children[..2]
    requires !r.isLeaf && r.entries == c.entries[2..] && r.children == c.children[2..]
    ensures Contents(c) == Contents(l) + [c.entries[1]] + Contents(r)
  {
    hide Contents, Left, Right;
    var cs, es := c.children, c.entries;
    ContentsAroundPair(c, 1);
    EmptySides();
    assert l.entries == es[..1] + [];
    assert r.entries == [] + es[2..];
    Assembled(cs[..1], es[..1], cs[1], [], [], l);
    Assembled([], [], cs[2], es[2..], cs[3..], r);
    RegroupHalves(Left(cs[..1], es[..1]), Contents(cs[1]), es[1], Contents(cs[2]), Right(es[2..], cs[3..]));
  }

  lemma RegroupHalves(l: seq<Entry>, a: seq<Entry>, e: Entry, b: seq<Entry>, r: seq<Entry>)
    ensures l + (a + [e] + b) + r == (l + a + []) + [e] + ([] + b + r)
  {
  }

  /** Take a full child apart around its middle entry. */
  method SplitNode(c: Node, ghost h: nat) returns (left: Node, promoted: Entry, right: Node)
    requires Balanced(c, h) && |c.entries| == MAX_ENTRIES
    ensures Child(left, h) && Child(right, h)
    ensures |left.entries| == 1 && |right.entries| == 1
    ensures Contents(c) == Contents(left) + [promoted] + Contents(right)
  {
    hide Contents, Left, Right;
    promoted := c.entries[1];
    var l := Node(c.entries[..1], if c.isLeaf then [] else c.children[..2], c.maxEnd, c.isLeaf);
    var r := Node(c.entries[2..], if c.isLeaf then [] else c.children[2..], INT64_MIN, c.isLeaf);
    if c.isLeaf {
      LeafContents(c);
      LeafContents(l);
      LeafContents(r);
      assert c.entries == c.entries[..1] + [promoted] + c.entries[2..];
    } else {
      HalvesOf(c, l, r);
      ChildrenOf(c, h - 1);
      ShapeOf(l, h - 1);
      ShapeOf(r, h - 1);
    }
    left := RefreshMaxEnd(l, h);
    right := RefreshMaxEnd(r, h);
  }

  method SplitChild(parent: Node, i: nat, ghost h: nat) returns (r: Node)
    requires Shape(parent, h + 1) && |parent.entries| < MAX_ENTRIES
    requires i < |parent.children| && |parent.children[i].entries| == MAX_ENTRIES
    ensures Balanced(r, h + 1)
    ensures Contents(r) == Contents(parent)
    ensures |r.entries| == |parent.entries| + 1 && |r.children| == |r.entries| + 1
    ensures r.entries == parent.entries[..i] + [r.entries[i]] + parent.entries[i..]
    ensures |r.children[i].entries| == 1 && |r.children[i + 1].entries| == 1
  {
    hide Contents, Left, Right, Balanced;
    ghost var pc, pe := parent.children[..i], parent.entries[..i];
    ghost var sc, se := parent.children[i + 1..], parent.entries[i..];
    ContentsAround(parent, i);
    ChildrenOf(parent, h);
    var left, promoted, right := SplitNode(parent.children[i], h);
    var split := parent.(entries := parent.entries[..i] + [promoted] + parent.entries[i..],
                         children := parent.children[..i] + [left, right] + parent.children[i + 1..],
                         isLeaf := false);
    assert split.children == pc + [left] + ([right] + sc);
    assert split.entries == pe + ([promoted] + se);
    AssembledPair(pc, pe, left, promoted, right, se, sc, split);
    assert forall c :: c in split.children ==> c in parent.children || c == left || c == right;
    ShapeOf(split, h);
    r := RefreshMaxEnd(split, h + 1);
  }

  // ---------------------------------------------------------------- insertion

  /** Where a scan from the right stops, in sorted entries. */
  lemma ScanPosition(cmp: Comparator, es: seq<Entry>, e: Entry, k: nat)
    requires LegalComparator(cmp) && Sorted(cmp, es) && k <= |es|
    requires k > 0 ==> !EntryLess(cmp, e, es[k - 1])
    ensures forall x :: x in es[..k] ==> !EntryLess(cmp, e, x)
  {
    forall x | x in es[..k]
      ensures !EntryLess(cmp, e, x)
    {
      var j :| 0 <= j < k && es[j] == x;
      LessIsStrictTotalOrder(cmp, e, x, es[k - 1]);
    }
  }

  lemma {:induction false} LeftEndsWith(cs: seq<Node>, es: seq<Entry>)
    requires |cs| == |es| > 0
    ensures Left(cs, es) != [] && Left(cs, es)[|Left(cs, es)| - 1] == es[|es| - 1]
  {
    var k := |es| - 1;
    LeftAppend(cs[..k], es[..k], cs[k], es[k]);
    assert cs == cs[..k] + [cs[k]] && es == es[..k] + [es[k]];
  }

  lemma RightStartsWith(es: seq<Entry>, cs: seq<Node>)
    requires |cs| == |es|
    ensures if es == [] then Right(es, cs) == [] else Right(es, cs) != [] && Right(es, cs)[0] == es[0]
  {
  }

  lemma {:induction false} EntriesInContents(cs: seq<Node>, es: seq<Entry>)
    requires |cs| == |es|
    ensures forall e :: e in es ==> e in Left(cs, es)
    ensures forall e :: e in es ==> e in Right(es, cs)
  {
    if es != [] {
      EntriesInContents(cs[1..], es[1..]);
      assert es == [es[0]] + es[1..];
    }
  }

  /** The part left of child `k` holds nothing above `e`. */
  lemma NothingAboveLeft(cmp: Comparator, n: Node, k: nat, e: Entry)
    requires LegalComparator(cmp) && !n.isLeaf && |n.children| == |n.entries| + 1 && k <= |n.entries|
    requires Sorted(cmp, Contents(n))
    requires k > 0 ==> !EntryLess(cmp, e, n.entries[k - 1])
    ensures forall x :: x in Left(n.children[..k], n.entries[..k]) ==> !EntryLess(cmp, e, x)
  {
    if k > 0 {
      var l := Left(n.children[..k], n.entries[..k]);
      ContentsAround(n, k);
      var rest := Contents(n.children[k]) + Right(n.entries[k..], n.children[k + 1..]);
      assert Contents(n) == l + rest;
      SortedParts(cmp, l, rest);
      LeftEndsWith(n.children[..k], n.entries[..k]);
      ScanPosition(cmp, l, e, |l|);
      assert l[..|l|] == l;
    }
  }

  /** Insertion below child `k` is insertion into the whole. */
  lemma InsertBelow(cmp: Comparator, n: Node, k: nat, e: Entry, c: Node, r: Node)
    requires LegalComparator(cmp) && !n.isLeaf && |n.children| == |n.entries| + 1 && k <= |n.entries|
    requires Sorted(cmp, Contents(n))
    requires k > 0 ==> !EntryLess(cmp, e, n.entries[k - 1])
    requires k < |n.entries| ==> EntryLess(cmp, e, n.entries[k])
    requires Contents(c) == Insert(cmp, Contents(n.children[k]), e)
    requires r == n.(children := n.children[k := c])
    ensures Contents(r) == Insert(cmp, Contents(n), e)
  {
    hide Contents, Left, Right, Insert, EntryLess;
    NothingAboveLeft(cmp, n, k, e);
    ContentsAround(n, k);
    var right := Right(n.entries[k..], n.children[k + 1..]);
    RightStartsWith(n.entries[k..], n.children[k + 1..]);
    InsertMiddle(cmp, Left(n.children[..k], n.entries[..k]), Contents(n.children[k]), right, e);
    assert r.children == n.children[..k] + [c] + n.children[k + 1..];
    assert r.entries == n.entries[..k] + n.entries[k..];
    Assembled(n.children[..k], n.entries[..k], c, n.entries[k..], n.children[k + 1..], r);
  }

  lemma ChildSorted(cmp: Comparator, n: Node, k: nat)
    requires !n.isLeaf && |n.children| == |n.entries| + 1 && k <= |n.entries|
    requires Sorted(cmp, Contents(n))
    ensures Sorted(cmp, Contents(n.children[k]))
    ensures forall x :: x in Contents(n.children[k]) ==> x in Contents(n)
    ensures Sorted(cmp, n.entries)
    ensures forall x :: x in n.entries ==> x in Contents(n)
  {
    ContentsAround(n, k);
    var l := Left(n.children[..k], n.entries[..k]);
    var c := Contents(n.children[k]);
    SortedParts(cmp, l + c, Right(n.entries[k..], n.children[k + 1..]));
    SortedParts(cmp, l, c);
    EntriesSorted(cmp, n);
  }

  lemma {:induction false} RightSorted(cmp: Comparator, es: seq<Entry>, cs: seq<Node>)
    requires |es| == |cs| && Sorted(cmp, Right(es, cs))
    ensures Sorted(cmp, es)
  {
    if es != [] {
      var rest := Right(es[1..], cs[1..]);
      SortedParts(cmp, [es[0]] + Contents(cs[0]), rest);
      RightSorted(cmp, es[1..], cs[1..]);
      EntriesInContents(cs[1..], es[1..]);
      assert es[0] in [es[0]] + Contents(cs[0]);
      assert es == [es[0]] + es[1..];
    }
  }

  lemma EntriesSorted(cmp: Comparator, n: Node)
    requires !n.isLeaf && |n.children| == |n.entries| + 1
    requires Sorted(cmp, Contents(n))
    ensures Sorted(cmp, n.entries)
    ensures forall x :: x in n.entries ==> x in Contents(n)
  {
    SortedParts(cmp, Contents(n.children[0]), Right(n.entries, n.children[1..]));
    RightSorted(cmp, n.entries, n.children[1..]);
    EntriesInContents(n.children[1..], n.entries);
  }

  /** Scan from the right for the position an entry belongs at. */
  method InsertPosition(cmp: Comparator, es: seq<Entry>, e: Entry) returns (k: nat)
    ensures k <= |es|
    ensures k > 0 ==> !EntryLess(cmp, e, es[k - 1])
    ensures k < |es| ==> EntryLess(cmp, e, es[k])
  {
    k := |es|;
    while k > 0 && EntryLess(cmp, e, es[k - 1])
      invariant k <= |es|
      invariant k < |es| ==> EntryLess(cmp, e, es[k])
    {
      k := k - 1;
    }
  }

  lemma ReplacedChildShape(n: Node, k: nat, c: Node, h: nat)
    requires Shape(n, h + 1) && k < |n.children| && Child(c, h)
    ensures Shape(n.(children := n.children[k := c]), h + 1)
  {
  }

  method InsertIntoLeaf(cmp: Comparator, n: Node, e: Entry, k: nat) returns (r: Node)
    requires LegalComparator(cmp)
    requires Balanced(n, 0) && |n.entries| < MAX_ENTRIES && Sorted(cmp, n.entries)
    requires k <= |n.entries|
    requires k > 0 ==> !EntryLess(cmp, e, n.entries[k - 1])
    requires k < |n.entries| ==> EntryLess(cmp, e, n.entries[k])
    ensures Balanced(r, 0) && |r.entries| == |n.entries| + 1
    ensures Contents(r) == Insert(cmp, Contents(n), e)
  {
    ScanPosition(cmp, n.entries, e, k);
    InsertMiddle(cmp, n.entries[..k], [], n.entries[k..], e);
    assert n.entries == n.entries[..k] + [] + n.entries[k..];
    r := RefreshMaxEnd(n.(entries := n.entries[..k] + [e] + n.entries[k..]), 0);
  }

  /** Split child `k` when it is full, and choose the half that `e` belongs to. */
  method MakeRoom(cmp: Comparator, n: Node, e: Entry, k: nat, ghost h: nat) returns (m: Node, k': nat)
    requires LegalComparator(cmp)
    requires Balanced(n, h + 1) && |n.entries| < MAX_ENTRIES && k <= |n.entries|
    requires Sorted(cmp, Contents(n))
    requires forall x :: x in Contents(n) ==> x.ordinal != e.ordinal
    requires k > 0 ==> !EntryLess(cmp, e, n.entries[k - 1])
    requires k < |n.entries| ==> EntryLess(cmp, e, n.entries[k])
    ensures Balanced(m, h + 1) && |m.entries| >= |n.entries| && |m.children| == |m.entries| + 1
    ensures Contents(m) == Contents(n)
    ensures k' <= |m.entries| && 1 <= |m.children[k'].entries| < MAX_ENTRIES
    ensures k' > 0 ==> !EntryLess(cmp, e, m.entries[k' - 1])
    ensures k' < |m.entries| ==> EntryLess(cmp, e, m.entries[k'])
  {
    hide Contents, Left, Right, EntryLess;
    ChildrenOf(n, h);
    assert n.children[k] in n.children;
    m, k' := n, k;
    if |n.children[k].entries| == MAX_ENTRIES {
      m := SplitChild(n, k, h);
      EntriesSorted(cmp, m);
      assert m.entries[k] in m.entries;
      LessIsStrictTotalOrder(cmp, m.entries[k], e, e);
      if EntryLess(cmp, m.entries[k], e) {
        k' := k + 1;
      }
    }
  }

  /** Insert below a node that has room, splitting full children on the way down. */
  method InsertNonFull(cmp: Comparator, n: Node, e: Entry, ghost h: nat) returns (r: Node)
    requires LegalComparator(cmp)
    requires Balanced(n, h) && |n.entries| < MAX_ENTRIES
    requires Sorted(cmp, Contents(n))
    requires forall x :: x in Contents(n) ==> x.ordinal != e.ordinal
    ensures Balanced(r, h) && |r.entries| >= |n.entries|
    ensures h == 0 ==> |r.entries| == |n.entries| + 1
    ensures Contents(r) == Insert(cmp, Contents(n), e)
    decreases h
  {
    hide Contents, Left, Right, Insert, EntryLess, Sorted;
    var k := InsertPosition(cmp, n.entries, e);
    if n.isLeaf {
      LeafContents(n);
      r := InsertIntoLeaf(cmp, n, e, k);
    } else {
      var m, k' := MakeRoom(cmp, n, e, k, h - 1);
      ChildSorted(cmp, m, k');
      var c := InsertNonFull(cmp, m.children[k'], e, h - 1);
      var below := m.(children := m.children[k' := c]);
      InsertBelow(cmp, m, k', e, c, below);
      ReplacedChildShape(m, k', c, h - 1);
      r := RefreshMaxEnd(below, h);
    }
  }

  lemma OnlyChild(root: Node, n: Node)
    requires !n.isLeaf && n.entries == [] && n.children == [root]
    ensures Contents(n) == Contents(root)
  {
    assert Right([], n.children[1..]) == [];
  }

  /** Insertion at the root, growing the tree by one level when the root is full. */
  method InsertRoot(cmp: Comparator, root: Node, e: Entry, ghost h: nat) returns (r: Node, ghost h': nat)
    requires LegalComparator(cmp)
    requires Balanced(root, h) && (h > 0 ==> |root.entries| >= 1)
    requires Sorted(cmp, Contents(root))
    requires forall x :: x in Contents(root) ==> x.ordinal != e.ordinal
    ensures Child(r, h') && h <= h' <= h + 1
    ensures Contents(r) == Insert(cmp, Contents(root), e)
  {
    var top := root;
    h' := h;
    if |root.entries| == MAX_ENTRIES {
      var newRoot := Node([], [root], INT64_MIN, false);
      OnlyChild(root, newRoot);
      top := SplitChild(newRoot, 0, h);
      h' := h + 1;
    }
    r := InsertNonFull(cmp, top, e, h');
  }
}
