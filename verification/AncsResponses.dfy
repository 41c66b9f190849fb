/**
 What a completed response carries, zero-length values included, and why it does not matter where a
 response is cut into fragments.
 */
module AncsResponses {
  import opened Common
  import opened Utf8
  import opened AncsReassembler

  // ---------------------------------------------------------------- zero-length values

  function AttributeOf(a: Attributes, id: Byte): (r: Text)
    requires id in REQUESTED
  {
    match id
    case 0 => a.appIdentifier
    case 1 => a.title
    case 2 => a.subtitle
    case 3 => a.message
    case _ => a.date
  }

  /** What the documentation of the attribute set promises for a value: absence for zero length. */
  function Documented(value: seq<Byte>): (r: Text) {
    if value == [] then Absent else Present(value)
  }

  lemma Distinct(j: nat, k: nat)
    requires j < 5 && k < 5
    ensures REQUESTED[j] in REQUESTED && (REQUESTED[j] == REQUESTED[k] <==> j == k)
  {
  }

  lemma AssignSetsOne(a: Attributes, j: nat, k: nat, value: seq<Byte>)
    requires j < 5 && k < 5
    ensures AttributeOf(Assign(a, k, value), REQUESTED[j]) ==
      if j == k then Present(value) else AttributeOf(a, REQUESTED[j])
  {
  }

  /** The attributes from the `k`-th on are those of the one item with their identifier. */
  lemma {:induction false} CollectedAt(items: seq<Item>, k: nat, a: Attributes, j: nat)
    requires k <= 5 && j < 5 && ItemsFrom(items, k)
    ensures j < k ==> AttributeOf(Collected(items, k, a), REQUESTED[j]) == AttributeOf(a, REQUESTED[j])
    ensures j < k ==> forall i :: 0 <= i < |items| ==> items[i].id != REQUESTED[j]
    ensures k <= j ==> exists i :: 0 <= i < |items| && items[i].id == REQUESTED[j]
    ensures k <= j ==> forall i :: 0 <= i < |items| && items[i].id == REQUESTED[j] ==>
      AttributeOf(Collected(items, k, a), REQUESTED[j]) == Present(items[i].value)
    decreases |items|
  {
    if k < 5 {
      hide AttributeOf, Assign, IsUtf8;
      Distinct(j, k);
      AssignSetsOne(a, j, k, items[0].value);
      var rest := items[1..];
      if items[0].id == REQUESTED[k] {
        CollectedAt(rest, k + 1, Assign(a, k, items[0].value), j);
      } else {
        CollectedAt(rest, k, a, j);
      }
      assert forall i :: 1 <= i < |items| ==> items[i] == rest[i - 1];
      if j > k || (j == k && items[0].id != REQUESTED[k]) {
        var i :| 0 <= i < |rest| && rest[i].id == REQUESTED[j];
        assert items[i + 1].id == REQUESTED[j];
      }
    }
  }

  /**
   A completed response carries every requested attribute, and each is present with the value
   of its item: the empty string exactly for a zero-length value, and never absent.
   */
  lemma CompleteIsPresent(s: seq<Byte>, uid: nat, a: Attributes) returns (items: seq<Item>)
    requires uid < 0x1_0000_0000 && Parse(s, uid) == Complete(a)
    ensures ItemsFrom(items, 0) && SmallItems(items) && s == EncodeHeader(uid) + EncodeItems(items)
    ensures forall id <- REQUESTED :: AttributeOf(a, id).Present?
    ensures forall id <- REQUESTED :: exists i :: 0 <= i < |items| && items[i].id == id
    ensures forall i :: 0 <= i < |items| && items[i].id in REQUESTED ==>
      AttributeOf(a, items[i].id) == Present(items[i].value)
  {
    hide Parse, EncodeItems, EncodeHeader, AttributeOf, ItemsFrom, Collected;
    ParseIffResponse(s, uid, a);
    items :| ItemsFrom(items, 0) && SmallItems(items) && Collected(items, 0, NO_ATTRIBUTES) == a
      && s == EncodeHeader(uid) + EncodeItems(items);
    forall j | 0 <= j < 5
      ensures exists i :: 0 <= i < |items| && items[i].id == REQUESTED[j]
      ensures AttributeOf(a, REQUESTED[j]).Present?
      ensures forall i :: 0 <= i < |items| && items[i].id == REQUESTED[j] ==>
        AttributeOf(a, REQUESTED[j]) == Present(items[i].value)
    {
      CollectedAt(items, 0, NO_ATTRIBUTES, j);
    }
  }

  /**
   A completed response follows the documentation exactly when no requested attribute in it
   has a zero-length value.
   */
  lemma DocumentedIffNoEmptyValue(items: seq<Item>, uid: nat, a: Attributes)
    requires uid < 0x1_0000_0000 && ItemsFrom(items, 0) && SmallItems(items)
    requires Parse(EncodeHeader(uid) + EncodeItems(items), uid) == Complete(a)
    ensures (forall i :: 0 <= i < |items| && items[i].id in REQUESTED ==>
               AttributeOf(a, items[i].id) == Documented(items[i].value)) <==>
      (forall i :: 0 <= i < |items| && items[i].id in REQUESTED ==> items[i].value != [])
  {
    hide ParseTuples, EncodeItems, EncodeHeader, AttributeOf, ItemsFrom, Collected, ReadUint32;
    var s := EncodeHeader(uid) + EncodeItems(items);
    HeaderLength(uid);
    HeaderBytes(s, uid);
    assert s[HEADER_SIZE..] == EncodeItems(items);
    EncodedItemsParse(items, 0, NO_ATTRIBUTES);
    forall i | 0 <= i < |items| && items[i].id in REQUESTED
      ensures AttributeOf(a, items[i].id) == Present(items[i].value)
    {
      var j :| 0 <= j < 5 && REQUESTED[j] == items[i].id;
      CollectedAt(items, 0, NO_ATTRIBUTES, j);
    }
  }

  /** The response whose five values all have length zero: five empty strings, nothing absent. */
  lemma EmptyValuesArePresent(uid: nat)
    requires uid < 0x1_0000_0000
    ensures Parse(EncodeHeader(uid) + [0, 0, 0, 1, 0, 0, 2, 0, 0, 3, 0, 0, 5, 0, 0], uid) ==
      Complete(Attributes(Present([]), Present([]), Present([]), Present([]), Present([])))
  {
    hide Parse, ParseTuples, EncodeHeader, EncodeItems, ItemsFrom, Collected, IsUtf8;
    var items := [Item(0, []), Item(1, []), Item(2, []), Item(3, []), Item(5, [])];
    EmptyIsItems(items);
    EmptyItemBytes(items);
    var a := Collected(items, 0, NO_ATTRIBUTES);
    var s := EncodeHeader(uid) + EncodeItems(items);
    assert Response(s, uid, a);
    ParseIffResponse(s, uid, a);
  }

  lemma EmptyIsItems(items: seq<Item>)
    requires items == [Item(0, []), Item(1, []), Item(2, []), Item(3, []), Item(5, [])]
    ensures ItemsFrom(items, 0)
    ensures Collected(items, 0, NO_ATTRIBUTES) ==
      Attributes(Present([]), Present([]), Present([]), Present([]), Present([]))
  {
    var i1 := items[1..];
    var i2 := i1[1..];
    var i3 := i2[1..];
    assert ItemsFrom(i3, 3) && ItemsFrom(i1, 1);
    var a := Assign(NO_ATTRIBUTES, 0, []);
    var b := Assign(Assign(a, 1, []), 2, []);
    assert Collected(i3[1..], 4, Assign(b, 3, [])) == Assign(Assign(b, 3, []), 4, []);
    assert Collected(i1, 1, a) == Collected(i3, 3, b);
  }

  lemma EmptyItemBytes(items: seq<Item>)
    requires items == [Item(0, []), Item(1, []), Item(2, []), Item(3, []), Item(5, [])]
    ensures EncodeItems(items) == [0, 0, 0, 1, 0, 0, 2, 0, 0, 3, 0, 0, 5, 0, 0]
  {
    var i1 := items[1..];
    var i2 := i1[1..];
    var i3 := i2[1..];
    assert EncodeItems(i3[1..]) == [5, 0, 0];
    assert EncodeItems(i3) == [3, 0, 0, 5, 0, 0];
    assert EncodeItems(i1) == [1, 0, 0, 2, 0, 0, 3, 0, 0, 5, 0, 0];
  }

  // ---------------------------------------------------------------- cuts do not matter

  ghost function Concat(fragments: seq<seq<Byte>>): (s: seq<Byte>) {
    if fragments == [] then [] else Concat(fragments[..|fragments| - 1]) + fragments[|fragments| - 1]
  }

  ghost function Fed(uid: nat, fragments: seq<seq<Byte>>): (st: Stream) {
    if fragments == [] then Stream([], false)
    else Feed(uid, Fed(uid, fragments[..|fragments| - 1]), fragments[|fragments| - 1])
  }

  /** What feeding the last of the fragments returns. */
  ghost function Result(uid: nat, fragments: seq<seq<Byte>>): (r: Outcome)
    requires fragments != []
  {
    FeedOutcome(uid, Fed(uid, fragments[..|fragments| - 1]), fragments[|fragments| - 1])
  }

  /** While the stream is open it holds everything fed so far, and is waiting. */
  lemma {:induction false} OpenStream(uid: nat, fragments: seq<seq<Byte>>)
    requires !Fed(uid, fragments).terminal
    ensures Fed(uid, fragments).bytes == Concat(fragments)
    ensures Parse(Concat(fragments), uid) == NeedMore && |Concat(fragments)| <= MAX_RESPONSE
  {
    if fragments != [] {
      hide ParseTuples;
      var init, last := fragments[..|fragments| - 1], fragments[|fragments| - 1];
      OpenStream(uid, init);
      if last == [] {
        assert Concat(init) + [] == Concat(init);
      }
    }
  }

  /** Prefixes of a response that completes later keep the stream open. */
  lemma {:induction false} PrefixKeepsOpen(uid: nat, fragments: seq<seq<Byte>>, x: seq<Byte>)
    requires x != [] && |Concat(fragments) + x| <= MAX_RESPONSE && Parse(Concat(fragments) + x, uid).Complete?
    ensures Fed(uid, fragments) == Stream(Concat(fragments), false)
    ensures fragments != [] && fragments[|fragments| - 1] != [] ==> Result(uid, fragments) == NeedMore
  {
    if fragments != [] {
      hide Parse;
      var init, last := fragments[..|fragments| - 1], fragments[|fragments| - 1];
      assert Concat(fragments) + x == Concat(init) + (last + x);
      PrefixKeepsOpen(uid, init, last + x);
      PrefixWaits(Concat(fragments), x, uid);
      if last == [] {
        assert Concat(init) + [] == Concat(init);
      }
    }
  }

  /**
   Feeding fragments ends with attributes `a` exactly when the last fragment is not empty and
   the concatenation is a well-formed response of allowed size carrying `a`.
   */
  lemma CutsDoNotMatter(uid: nat, fragments: seq<seq<Byte>>, a: Attributes)
    requires uid < 0x1_0000_0000 && fragments != []
    ensures Result(uid, fragments) == Complete(a) <==>
      fragments[|fragments| - 1] != [] && |Concat(fragments)| <= MAX_RESPONSE && Response(Concat(fragments), uid, a)
  {
    hide Parse, Response;
    var init, last := fragments[..|fragments| - 1], fragments[|fragments| - 1];
    ParseIffResponse(Concat(fragments), uid, a);
    if Result(uid, fragments) == Complete(a) {
      OpenStream(uid, init);
    }
    if last != [] && |Concat(fragments)| <= MAX_RESPONSE && Parse(Concat(fragments), uid) == Complete(a) {
      PrefixKeepsOpen(uid, init, last);
    }
  }

  /** Before the fragment that completes a response, every non-empty fragment asks for more. */
  lemma EarlierFragmentsWait(uid: nat, fragments: seq<seq<Byte>>, i: nat)
    requires fragments != [] && Result(uid, fragments).Complete?
    requires i < |fragments| - 1 && fragments[i] != []
    ensures Result(uid, fragments[..i + 1]) == NeedMore
  {
    hide Parse;
    var init, last := fragments[..|fragments| - 1], fragments[|fragments| - 1];
    OpenStream(uid, init);
    var x := ConcatTail(fragments, i + 1);
    PrefixKeepsOpen(uid, fragments[..i + 1], x);
    assert fragments[..i + 1][i] == fragments[i];
  }

  lemma {:induction false} ConcatTail(fragments: seq<seq<Byte>>, n: nat) returns (x: seq<Byte>)
    requires n <= |fragments|
    ensures Concat(fragments) == Concat(fragments[..n]) + x
    ensures n < |fragments| && fragments[|fragments| - 1] != [] ==> x != []
  {
    if n == |fragments| {
      x := [];
      assert fragments[..n] == fragments;
    } else {
      var init, last := fragments[..|fragments| - 1], fragments[|fragments| - 1];
      var y := ConcatTail(init, n);
      x := y + last;
      assert init[..n] == fragments[..n];
    }
  }
}
