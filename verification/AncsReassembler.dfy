/**
 Reassembly of a "Get Notification Attributes" response of the ANCS Data Source from
 fragments cut anywhere.

 `Parse` reads a whole response at once and `Response` says what a well-formed response is;
 the streaming class is tied to the first, and the first to the second.
 */
module AncsReassembler {
  import opened Common
  import opened Utf8

  const HEADER_SIZE: nat := 5
  const TUPLE_HEADER_SIZE: nat := 3
  const MAX_RESPONSE: nat := 8192
  const REQUESTED: seq<Byte> := [0, 1, 2, 3, 5]
  const MAX_SIZES: seq<nat> := [255, 256, 256, 4096, 64]

  datatype ErrorKind = NotReady | Protocol | ResourceLimit

  /** One for each error the reassembler can report. */
  datatype Fault =
    | AlreadyEnded
    | EmptyFragment
    | ResponseTooLong
    | WrongCommand
    | WrongUid
    | OutOfOrder
    | ValueTooLong
    | NotUtf8
    | TrailingData
  {
    function Kind(): (k: ErrorKind) {
      if AlreadyEnded? then NotReady
      else if ResponseTooLong? || ValueTooLong? then ResourceLimit
      else Protocol
    }

    /** Only a text that is not UTF-8 leaves the session alive. */
    predicate Fatal() {
      !NotUtf8?
    }

    function Text(): (text: string) {
      match this
      case AlreadyEnded => "ANCS Data Source response parser is already complete or failed"
      case EmptyFragment => "ANCS Data Source fragment is empty"
      case ResponseTooLong => "ANCS Data Source response exceeds the 8192-byte limit"
      case WrongCommand => "unexpected ANCS Data Source response command identifier"
      case WrongUid => "ANCS Data Source response UID does not match the active request"
      case OutOfOrder => "ANCS Data Source attributes are not in requested order"
      case ValueTooLong => "ANCS attribute value exceeds its configured byte limit"
      case NotUtf8 => "ANCS attribute is not valid UTF-8"
      case TrailingData => "ANCS Data Source response has trailing unrequested data"
    }
  }

  datatype Text = Absent | Present(bytes: seq<Byte>)

  datatype Attributes = Attributes(appIdentifier: Text, title: Text, subtitle: Text, message: Text, date: Text)

  datatype Outcome = NeedMore | Complete(attributes: Attributes) | Failed(fault: Fault)

  const NO_ATTRIBUTES := Attributes(Absent, Absent, Absent, Absent, Absent)

  function ReadUint16(s: seq<Byte>, offset: nat): (n: nat)
    requires offset + 2 <= |s|
  {
    s[offset] as nat + 256 * s[offset + 1] as nat
  }

  function ReadUint32(s: seq<Byte>, offset: nat): (n: nat)
    requires offset + 4 <= |s|
  {
    s[offset] as nat + 0x100 * s[offset + 1] as nat +
    0x1_0000 * s[offset + 2] as nat + 0x100_0000 * s[offset + 3] as nat
  }

  function Assign(a: Attributes, index: nat, value: seq<Byte>): (r: Attributes) {
    match index
    case 0 => a.(appIdentifier := Present(value))
    case 1 => a.(title := Present(value))
    case 2 => a.(subtitle := Present(value))
    case 3 => a.(message := Present(value))
    case 4 => a.(date := Present(value))
    case _ => a
  }

  // ---------------------------------------------------------------- parsing at once

  /** Outcome of the attribute tuples when `k` requested ones have been seen. */
  ghost function ParseTuples(s: seq<Byte>, k: nat, a: Attributes): (r: Outcome)
    requires k <= 5
    decreases |s|
  {
    if k == 5 then (if s == [] then Complete(a) else Failed(TrailingData))
    else if |s| < TUPLE_HEADER_SIZE then NeedMore
    else
      var id, length := s[0], ReadUint16(s, 1);
      if id != REQUESTED[k] then
        if id in REQUESTED then Failed(OutOfOrder)
        else if length > |s| - TUPLE_HEADER_SIZE then NeedMore
        else ParseTuples(s[TUPLE_HEADER_SIZE + length..], k, a)
      else if length > MAX_SIZES[k] then Failed(ValueTooLong)
      else if length > |s| - TUPLE_HEADER_SIZE then NeedMore
      else
        var value := s[TUPLE_HEADER_SIZE..TUPLE_HEADER_SIZE + length];
        if !IsUtf8(value) then Failed(NotUtf8)
        else ParseTuples(s[TUPLE_HEADER_SIZE + length..], k + 1, Assign(a, k, value))
  }

  ghost function Parse(s: seq<Byte>, uid: nat): (r: Outcome) {
    if |s| < HEADER_SIZE then NeedMore
    else if s[0] != 0 then Failed(WrongCommand)
    else if ReadUint32(s, 1) != uid then Failed(WrongUid)
    else ParseTuples(s[HEADER_SIZE..], 0, NO_ATTRIBUTES)
  }

  // ---------------------------------------------------------------- well-formed responses

  datatype Item = Item(id: Byte, value: seq<Byte>)

  /** The requested attributes from the `k`-th on, in order, with unknown ones between them. */
  ghost predicate ItemsFrom(items: seq<Item>, k: nat)
    requires k <= 5
    decreases |items|
  {
    if k == 5 then items == []
    else
      && items != []
      && |items[0].value| < 0x1_0000
      && (if items[0].id == REQUESTED[k]
          then |items[0].value| <= MAX_SIZES[k] && IsUtf8(items[0].value) && ItemsFrom(items[1..], k + 1)
          else items[0].id !in REQUESTED && ItemsFrom(items[1..], k))
  }

  ghost function Collected(items: seq<Item>, k: nat, a: Attributes): (r: Attributes)
    requires k <= 5
    decreases |items|
  {
    if items == [] || k == 5 then a
    else if items[0].id == REQUESTED[k] then Collected(items[1..], k + 1, Assign(a, k, items[0].value))
    else Collected(items[1..], k, a)
  }

  ghost function EncodeItem(item: Item): (s: seq<Byte>)
    requires |item.value| < 0x1_0000
  {
    [item.id, |item.value| % 256, |item.value| / 256] + item.value
  }

  ghost function EncodeItems(items: seq<Item>): (s: seq<Byte>)
    requires forall i :: 0 <= i < |items| ==> |items[i].value| < 0x1_0000
  {
    if items == [] then [] else EncodeItem(items[0]) + EncodeItems(items[1..])
  }

  ghost function EncodeHeader(uid: nat): (s: seq<Byte>)
    requires uid < 0x1_0000_0000
  {
    [0, uid % 256, uid / 256 % 256, uid / 256 / 256 % 256, uid / 256 / 256 / 256]
  }

  /** `s` is a response for `uid` whose requested attributes are `a`. */
  ghost predicate Response(s: seq<Byte>, uid: nat, a: Attributes)
    requires uid < 0x1_0000_0000
  {
    exists items: seq<Item> ::
      ItemsFrom(items, 0) && SmallItems(items) && Collected(items, 0, NO_ATTRIBUTES) == a
      && s == EncodeHeader(uid) + EncodeItems(items)
  }

  ghost predicate SmallItems(items: seq<Item>) {
    forall i :: 0 <= i < |items| ==> |items[i].value| < 0x1_0000
  }

  lemma EncodedItem(item: Item, rest: seq<Byte>)
    requires |item.value| < 0x1_0000
    ensures var s := EncodeItem(item) + rest;
      var length := |item.value|;
      && |s| >= TUPLE_HEADER_SIZE + length
      && s[0] == item.id && ReadUint16(s, 1) == length
      && s[TUPLE_HEADER_SIZE..TUPLE_HEADER_SIZE + length] == item.value
      && s[TUPLE_HEADER_SIZE + length..] == rest
  {
  }

  lemma {:induction false} EncodedItemsParse(items: seq<Item>, k: nat, a: Attributes)
    requires k <= 5 && ItemsFrom(items, k) && SmallItems(items)
    ensures ParseTuples(EncodeItems(items), k, a) == Complete(Collected(items, k, a))
    decreases |items|
  {
    if k < 5 {
      hide EncodeItem, Assign, IsUtf8, ReadUint16;
      EncodedItem(items[0], EncodeItems(items[1..]));
      if items[0].id == REQUESTED[k] {
        EncodedItemsParse(items[1..], k + 1, Assign(a, k, items[0].value));
      } else {
        EncodedItemsParse(items[1..], k, a);
      }
    }
  }

  lemma {:induction false} ParsedItems(s: seq<Byte>, k: nat, a: Attributes) returns (items: seq<Item>)
    requires k <= 5 && ParseTuples(s, k, a).Complete?
    ensures ItemsFrom(items, k) && SmallItems(items)
    ensures s == EncodeItems(items)
    ensures ParseTuples(s, k, a) == Complete(Collected(items, k, a))
    decreases |s|
  {
    if k == 5 {
      items := [];
    } else {
      hide Assign, IsUtf8, EncodeItem;
      var length := ReadUint16(s, 1);
      var value := s[TUPLE_HEADER_SIZE..TUPLE_HEADER_SIZE + length];
      var item := Item(s[0], value);
      var tail := s[TUPLE_HEADER_SIZE + length..];
      var rest;
      if s[0] == REQUESTED[k] {
        rest := ParsedItems(tail, k + 1, Assign(a, k, value));
      } else {
        rest := ParsedItems(tail, k, a);
      }
      items := [item] + rest;
      assert items[1..] == rest;
      ItemBytes(s, length);
      assert s == EncodeItem(item) + tail;
    }
  }

  lemma ItemBytes(s: seq<Byte>, length: nat)
    requires |s| >= TUPLE_HEADER_SIZE + length && ReadUint16(s, 1) == length
    ensures length < 0x1_0000
    ensures var end := TUPLE_HEADER_SIZE + length;
      s == EncodeItem(Item(s[0], s[TUPLE_HEADER_SIZE..end])) + s[end..]
  {
    var value := s[TUPLE_HEADER_SIZE..TUPLE_HEADER_SIZE + length];
    assert length % 256 == s[1] && length / 256 == s[2];
    assert EncodeItem(Item(s[0], value)) == [s[0], s[1], s[2]] + value;
    assert s == [s[0], s[1], s[2]] + value + s[TUPLE_HEADER_SIZE + length..];
  }

  /** Four little-endian bytes are the digits of the number they stand for, and no others are. */
  lemma FourDigits(b0: Byte, b1: Byte, b2: Byte, b3: Byte, n: nat)
    requires n < 0x1_0000_0000
    ensures b0 as nat + 0x100 * b1 as nat + 0x1_0000 * b2 as nat + 0x100_0000 * b3 as nat == n <==>
      b0 == n % 256 && b1 == n / 256 % 256 && b2 == n / 256 / 256 % 256 && b3 == n / 256 / 256 / 256
  {
  }

  lemma HeaderBytes(s: seq<Byte>, uid: nat)
    requires uid < 0x1_0000_0000
    ensures |s| >= HEADER_SIZE && s[0] == 0 && ReadUint32(s, 1) == uid <==> EncodeHeader(uid) <= s
  {
    if |s| >= HEADER_SIZE {
      FourDigits(s[1], s[2], s[3], s[4], uid);
      assert s[..5] == [s[0], s[1], s[2], s[3], s[4]];
    }
  }

  /** Parsing completes with `a` exactly on the well-formed responses that carry `a`. */
  lemma ParseIffResponse(s: seq<Byte>, uid: nat, a: Attributes)
    requires uid < 0x1_0000_0000
    ensures Parse(s, uid) == Complete(a) <==> Response(s, uid, a)
  {
    hide ParseTuples, EncodeItems, EncodeHeader, ReadUint32, ItemsFrom, Collected;
    HeaderBytes(s, uid);
    HeaderLength(uid);
    if Parse(s, uid) == Complete(a) {
      var items := ParsedItems(s[HEADER_SIZE..], 0, NO_ATTRIBUTES);
      assert s == EncodeHeader(uid) + EncodeItems(items);
    }
    if Response(s, uid, a) {
      var items: seq<Item> :| ItemsFrom(items, 0) && SmallItems(items) && Collected(items, 0, NO_ATTRIBUTES) == a
        && s == EncodeHeader(uid) + EncodeItems(items);
      assert s[HEADER_SIZE..] == EncodeItems(items);
      EncodedItemsParse(items, 0, NO_ATTRIBUTES);
    }
  }

  lemma HeaderLength(uid: nat)
    requires uid < 0x1_0000_0000
    ensures |EncodeHeader(uid)| == HEADER_SIZE
  {
  }

  // ---------------------------------------------------------------- prefixes

  /** A tuple that is already whole parses the same whatever follows it. */
  lemma TupleThenRest(s: seq<Byte>, x: seq<Byte>, k: nat, a: Attributes)
    requires k < 5 && |s| >= TUPLE_HEADER_SIZE
    requires TUPLE_HEADER_SIZE + ReadUint16(s, 1) <= |s|
    ensures var length := ReadUint16(s, 1);
      var value := s[TUPLE_HEADER_SIZE..TUPLE_HEADER_SIZE + length];
      var rest := s[TUPLE_HEADER_SIZE + length..];
      && (s[0] !in REQUESTED ==> ParseTuples(s + x, k, a) == ParseTuples(rest + x, k, a))
      && (s[0] == REQUESTED[k] && length <= MAX_SIZES[k] && IsUtf8(value) ==>
            ParseTuples(s + x, k, a) == ParseTuples(rest + x, k + 1, Assign(a, k, value)))
  {
    hide Assign, IsUtf8;
    var length := ReadUint16(s, 1);
    assert (s + x)[TUPLE_HEADER_SIZE..TUPLE_HEADER_SIZE + length] == s[TUPLE_HEADER_SIZE..TUPLE_HEADER_SIZE + length];
    assert (s + x)[TUPLE_HEADER_SIZE + length..] == s[TUPLE_HEADER_SIZE + length..] + x;
    assert REQUESTED[k] in REQUESTED;
  }

  /** A proper prefix of something that parses completely is still waiting for more. */
  lemma {:induction false} PrefixOfTuplesWaits(s: seq<Byte>, x: seq<Byte>, k: nat, a: Attributes)
    requires k <= 5 && x != [] && ParseTuples(s + x, k, a).Complete?
    ensures ParseTuples(s, k, a) == NeedMore
    decreases |s|
  {
    if k < 5 && |s| >= TUPLE_HEADER_SIZE {
      hide Assign, IsUtf8;
      var length := ReadUint16(s, 1);
      assert ReadUint16(s + x, 1) == length && (s + x)[0] == s[0];
      if TUPLE_HEADER_SIZE + length <= |s| {
        TupleThenRest(s, x, k, a);
        assert s + [] == s;
        TupleThenRest(s, [], k, a);
        var value := s[TUPLE_HEADER_SIZE..TUPLE_HEADER_SIZE + length];
        assert (s + x)[TUPLE_HEADER_SIZE..TUPLE_HEADER_SIZE + length] == value;
        var rest := s[TUPLE_HEADER_SIZE + length..];
        assert rest + [] == rest;
        if s[0] == REQUESTED[k] {
          PrefixOfTuplesWaits(rest, x, k + 1, Assign(a, k, value));
        } else {
          PrefixOfTuplesWaits(rest, x, k, a);
        }
      }
    }
  }

  lemma PrefixWaits(s: seq<Byte>, x: seq<Byte>, uid: nat)
    requires x != [] && Parse(s + x, uid).Complete?
    ensures Parse(s, uid) == NeedMore
  {
    hide ParseTuples;
    if |s| >= HEADER_SIZE {
      assert (s + x)[HEADER_SIZE..] == s[HEADER_SIZE..] + x;
      PrefixOfTuplesWaits(s[HEADER_SIZE..], x, 0, NO_ATTRIBUTES);
    }
  }

  // ---------------------------------------------------------------- the streaming object

  /** All bytes accepted so far, and whether a result or a failure has been returned. */
  datatype Stream = Stream(bytes: seq<Byte>, terminal: bool)

  ghost function FeedOutcome(uid: nat, st: Stream, fragment: seq<Byte>): (r: Outcome) {
    if st.terminal then Failed(AlreadyEnded)
    else if fragment == [] then Failed(EmptyFragment)
    else if |st.bytes| + |fragment| > MAX_RESPONSE then Failed(ResponseTooLong)
    else Parse(st.bytes + fragment, uid)
  }

  ghost function Feed(uid: nat, st: Stream, fragment: seq<Byte>): (r: Stream) {
    if st.terminal || fragment == [] then st
    else if |st.bytes| + |fragment| > MAX_RESPONSE then st.(terminal := true)
    else Stream(st.bytes + fragment, Parse(st.bytes + fragment, uid) != NeedMore)
  }

  /** What remains to be parsed determines the outcome under every continuation. */
  ghost predicate Pending(stream: seq<Byte>, uid: nat, rest: seq<Byte>, k: nat, a: Attributes) {
    k <= 5 && forall x :: Parse(stream + x, uid) == ParseTuples(rest + x, k, a)
  }

  lemma PendingNow(stream: seq<Byte>, uid: nat, rest: seq<Byte>, k: nat, a: Attributes)
    requires Pending(stream, uid, rest, k, a)
    ensures Parse(stream, uid) == ParseTuples(rest, k, a)
  {
    assert stream + [] == stream && rest + [] == rest;
  }

  lemma PendingAfter(stream: seq<Byte>, uid: nat, rest: seq<Byte>, k: nat, a: Attributes, fragment: seq<Byte>)
    requires Pending(stream, uid, rest, k, a)
    ensures Pending(stream + fragment, uid, rest + fragment, k, a)
  {
    hide Parse, ParseTuples;
    forall x: seq<Byte>
      ensures Parse(stream + fragment + x, uid) == ParseTuples(rest + fragment + x, k, a)
    {
      assert stream + fragment + x == stream + (fragment + x);
      assert rest + fragment + x == rest + (fragment + x);
    }
  }

  lemma PendingHeader(stream: seq<Byte>, uid: nat)
    requires |stream| >= HEADER_SIZE && stream[0] == 0 && ReadUint32(stream, 1) == uid
    ensures Pending(stream, uid, stream[HEADER_SIZE..], 0, NO_ATTRIBUTES)
  {
    hide ParseTuples;
    forall x: seq<Byte>
      ensures Parse(stream + x, uid) == ParseTuples(stream[HEADER_SIZE..] + x, 0, NO_ATTRIBUTES)
    {
      assert (stream + x)[HEADER_SIZE..] == stream[HEADER_SIZE..] + x;
    }
  }

  lemma PendingTuple(stream: seq<Byte>, uid: nat, s: seq<Byte>, k: nat, a: Attributes)
    requires k < 5 && Pending(stream, uid, s, k, a) && |s| >= TUPLE_HEADER_SIZE
    requires TUPLE_HEADER_SIZE + ReadUint16(s, 1) <= |s|
    ensures var length := ReadUint16(s, 1);
      var value := s[TUPLE_HEADER_SIZE..TUPLE_HEADER_SIZE + length];
      var rest := s[TUPLE_HEADER_SIZE + length..];
      && (s[0] !in REQUESTED ==> Pending(stream, uid, rest, k, a))
      && (s[0] == REQUESTED[k] && length <= MAX_SIZES[k] && IsUtf8(value) ==>
            Pending(stream, uid, rest, k + 1, Assign(a, k, value)))
  {
    hide Parse, ParseTuples, Assign, IsUtf8, ReadUint16;
    forall x: seq<Byte> {
      TupleThenRest(s, x, k, a);
    }
  }

  class Reassembler {
    const expectedUid: nat
    var totalBytes: nat
    var expectedAttributeIndex: nat
    var headerSeen: bool
    var terminal: bool
    var buffer: seq<Byte>
    var attributes: Attributes
    ghost var accepted: seq<Byte>

    ghost function State(): (st: Stream)
      reads this
    {
      Stream(accepted, terminal)
    }

    ghost predicate Valid()
      reads this
    {
      && totalBytes == |accepted| <= MAX_RESPONSE
      && (!terminal ==> Parse(accepted, expectedUid) == NeedMore)
      && (!terminal && headerSeen ==> Pending(accepted, expectedUid, buffer, expectedAttributeIndex, attributes))
      && (!terminal && !headerSeen ==>
            buffer == accepted && expectedAttributeIndex == 0 && attributes == NO_ATTRIBUTES)
    }

    constructor (uid: nat)
      ensures Valid() && State() == Stream([], false) && expectedUid == uid
    {
      expectedUid := uid;
      totalBytes, expectedAttributeIndex, headerSeen, terminal := 0, 0, false, false;
      buffer, attributes, accepted := [], NO_ATTRIBUTES, [];
    }

    method Consume(fragment: seq<Byte>) returns (r: Outcome)
      requires Valid()
      modifies this
      ensures Valid()
      ensures r == FeedOutcome(expectedUid, old(State()), fragment)
      ensures State() == Feed(expectedUid, old(State()), fragment)
      ensures old(terminal) ==> r == Failed(AlreadyEnded) && State() == old(State())
      ensures !old(terminal) && fragment == [] ==> r == Failed(EmptyFragment) && State() == old(State())
      ensures !old(terminal) && fragment != [] && |old(accepted)| + |fragment| > 8192 ==>
        r == Failed(ResponseTooLong) && terminal
      ensures !old(terminal) && fragment != [] && |old(accepted)| + |fragment| <= 8192 ==>
        accepted == old(accepted) + fragment && r == Parse(accepted, expectedUid) && (terminal <==> r != NeedMore)
    {
      hide Parse, ParseTuples, Pending, ReadUint32;
      if terminal {
        return Failed(AlreadyEnded);
      }
      if fragment == [] {
        return Failed(EmptyFragment);
      }
      if |fragment| > MAX_RESPONSE - totalBytes {
        terminal := true;
        return Failed(ResponseTooLong);
      }
      totalBytes := totalBytes + |fragment|;
      if headerSeen {
        PendingAfter(accepted, expectedUid, buffer, expectedAttributeIndex, attributes, fragment);
      }
      buffer := buffer + fragment;
      accepted := accepted + fragment;
      var consumed := 0;
      if !headerSeen {
        HeaderOutcome(buffer, expectedUid);
        if |buffer| < HEADER_SIZE {
          return NeedMore;
        }
        if buffer[0] != 0 {
          terminal := true;
          return Failed(WrongCommand);
        }
        if ReadUint32(buffer, 1) != expectedUid {
          terminal := true;
          return Failed(WrongUid);
        }
        PendingHeader(buffer, expectedUid);
        consumed := HEADER_SIZE;
        headerSeen := true;
      } else {
        assert buffer[0..] == buffer;
      }
      r := ConsumeTuples(consumed);
    }

    /** The attribute loop, and what it returns when it stops. */
    method ConsumeTuples(start: nat) returns (r: Outcome)
      requires start <= |buffer| && !terminal && headerSeen && totalBytes == |accepted| <= MAX_RESPONSE
      requires Pending(accepted, expectedUid, buffer[start..], expectedAttributeIndex, attributes)
      modifies this
      ensures Valid() && accepted == old(accepted)
      ensures r == Parse(accepted, expectedUid) && terminal == (r != NeedMore)
    {
      hide Parse, Pending, IsUtf8, Assign, ReadUint16;
      var consumed := start;
      PendingIndex(accepted, expectedUid, buffer[consumed..], expectedAttributeIndex, attributes);
      while expectedAttributeIndex < 5
        invariant consumed <= |buffer| && expectedAttributeIndex <= 5
        invariant !terminal && headerSeen && accepted == old(accepted) && totalBytes == old(totalBytes)
        invariant buffer == old(buffer)
        invariant Pending(accepted, expectedUid, buffer[consumed..], expectedAttributeIndex, attributes)
        decreases |buffer| - consumed
      {
        ghost var rest := buffer[consumed..];
        PendingNow(accepted, expectedUid, rest, expectedAttributeIndex, attributes);
        if |buffer| - consumed < TUPLE_HEADER_SIZE {
          break;
        }
        var attributeId := buffer[consumed];
        var attributeLength := ReadUint16(buffer, consumed + 1);
        assert rest[0] == attributeId;
        SameUint16(buffer, consumed);
        var valueOffset := consumed + TUPLE_HEADER_SIZE;
        if attributeId != REQUESTED[expectedAttributeIndex] {
          if attributeId in REQUESTED {
            terminal := true;
            return Failed(OutOfOrder);
          }
          if attributeLength > |buffer| - valueOffset {
            break;
          }
          PendingTuple(accepted, expectedUid, rest, expectedAttributeIndex, attributes);
          assert rest[TUPLE_HEADER_SIZE + attributeLength..] == buffer[valueOffset + attributeLength..];
          consumed := valueOffset + attributeLength;
          continue;
        }
        if attributeLength > MAX_SIZES[expectedAttributeIndex] {
          terminal := true;
          return Failed(ValueTooLong);
        }
        if attributeLength > |buffer| - valueOffset {
          break;
        }
        var attributeBytes := buffer[valueOffset..valueOffset + attributeLength];
        assert rest[TUPLE_HEADER_SIZE..TUPLE_HEADER_SIZE + attributeLength] == attributeBytes;
        assert rest[TUPLE_HEADER_SIZE + attributeLength..] == buffer[valueOffset + attributeLength..];
        var valid := IsValidUtf8(attributeBytes);
        if !valid {
          terminal := true;
          return Failed(NotUtf8);
        }
        PendingTuple(accepted, expectedUid, rest, expectedAttributeIndex, attributes);
        attributes := Assign(attributes, expectedAttributeIndex, attributeBytes);
        consumed := valueOffset + attributeLength;
        expectedAttributeIndex := expectedAttributeIndex + 1;
      }
      PendingNow(accepted, expectedUid, buffer[consumed..], expectedAttributeIndex, attributes);
      if expectedAttributeIndex == 5 {
        terminal := true;
        if consumed != |buffer| {
          return Failed(TrailingData);
        }
        return Complete(attributes);
      }
      buffer := buffer[consumed..];
      r := NeedMore;
    }
  }

  lemma PendingIndex(stream: seq<Byte>, uid: nat, rest: seq<Byte>, k: nat, a: Attributes)
    requires Pending(stream, uid, rest, k, a)
    ensures k <= 5
  {
  }

  lemma SameUint16(s: seq<Byte>, offset: nat)
    requires offset + TUPLE_HEADER_SIZE <= |s|
    ensures ReadUint16(s[offset..], 1) == ReadUint16(s, offset + 1)
  {
  }

  lemma HeaderOutcome(s: seq<Byte>, uid: nat)
    ensures |s| < HEADER_SIZE ==> Parse(s, uid) == NeedMore
    ensures |s| >= HEADER_SIZE && s[0] != 0 ==> Parse(s, uid) == Failed(WrongCommand)
    ensures |s| >= HEADER_SIZE && s[0] == 0 && ReadUint32(s, 1) != uid ==> Parse(s, uid) == Failed(WrongUid)
  {
  }
}
