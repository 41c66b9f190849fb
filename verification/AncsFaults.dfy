/**
 Exactly when the parser reports which fault, and exactly when it asks for more.
 */
module AncsFaults {
  import opened Common
  import opened Utf8
  import opened AncsReassembler

  /** Well-formed tuples up to, and not including, the `k`-th requested attribute. */
  ghost predicate Leads(items: seq<Item>, k: nat, to: nat)
    requires k <= to <= 5
    decreases |items|
  {
    if items == [] then k == to
    else
      && k < 5 && |items[0].value| < 0x1_0000
      && (if items[0].id == REQUESTED[k]
          then k < to && |items[0].value| <= MAX_SIZES[k] && IsUtf8(items[0].value) && Leads(items[1..], k + 1, to)
          else items[0].id !in REQUESTED && Leads(items[1..], k, to))
  }

  /** After the header and tuples that are in order, `rest` remains with the `k`-th attribute due. */
  ghost predicate Reaches(s: seq<Byte>, uid: nat, k: nat, rest: seq<Byte>)
    requires uid < 0x1_0000_0000
  {
    k <= 5 && exists items: seq<Item> ::
      Leads(items, 0, k) && SmallItems(items) && s == EncodeHeader(uid) + EncodeItems(items) + rest
  }

  /** The tuple at the start of `rest` is of an attribute that was requested for another place. */
  predicate Misplaced(k: nat, rest: seq<Byte>) {
    k < 5 && |rest| >= 3 && rest[0] in REQUESTED && rest[0] != REQUESTED[k]
  }

  predicate Oversized(k: nat, rest: seq<Byte>) {
    k < 5 && |rest| >= 3 && rest[0] == REQUESTED[k] && rest[1] as nat + 256 * rest[2] as nat > MAX_SIZES[k]
  }

  /** The tuple at the start of `rest` is whole. */
  predicate Whole(rest: seq<Byte>) {
    |rest| >= 3 && rest[1] as nat + 256 * rest[2] as nat <= |rest| - 3
  }

  ghost predicate Garbled(k: nat, rest: seq<Byte>) {
    && k < 5 && Whole(rest) && rest[0] == REQUESTED[k] && !Oversized(k, rest)
    && !IsUtf8(rest[3..3 + rest[1] as nat + 256 * rest[2] as nat])
  }

  /** Nothing is wrong with `rest` so far, but the tuple it begins is not whole. */
  predicate Unfinished(k: nat, rest: seq<Byte>) {
    k < 5 && !Whole(rest) && !Misplaced(k, rest) && !Oversized(k, rest)
  }

  // ---------------------------------------------------------------- one step, and all of them

  /** Where the parser stops, and with which outcome. */
  ghost predicate Stops(k: nat, rest: seq<Byte>, a: Attributes, r: Outcome)
    requires k <= 5
  {
    match r
    case NeedMore => Unfinished(k, rest)
    case Complete(b) => k == 5 && rest == [] && b == a
    case Failed(TrailingData) => k == 5 && rest != []
    case Failed(OutOfOrder) => Misplaced(k, rest)
    case Failed(ValueTooLong) => Oversized(k, rest)
    case Failed(NotUtf8) => Garbled(k, rest)
    case Failed(_) => false
  }

  /** The tuple at the start of `s` is in order, or unknown and skipped. */
  ghost predicate Passes(k: nat, s: seq<Byte>) {
    k < 5 && Whole(s) && !Misplaced(k, s) && !Oversized(k, s) && !Garbled(k, s)
  }

  lemma StopsHere(s: seq<Byte>, k: nat, a: Attributes)
    requires k <= 5 && !Passes(k, s)
    ensures Stops(k, s, a, ParseTuples(s, k, a))
  {
    hide Assign, IsUtf8;
  }

  lemma PassesOn(s: seq<Byte>, k: nat, a: Attributes)
    requires Passes(k, s)
    ensures var length := ReadUint16(s, 1);
      var value, tail := s[3..3 + length], s[3 + length..];
      if s[0] == REQUESTED[k]
      then
        && length <= MAX_SIZES[k] && IsUtf8(value)
        && ParseTuples(s, k, a) == ParseTuples(tail, k + 1, Assign(a, k, value))
      else s[0] !in REQUESTED && ParseTuples(s, k, a) == ParseTuples(tail, k, a)
  {
    hide Assign, IsUtf8;
  }

  lemma {:induction false} ParseStops(s: seq<Byte>, k: nat, a: Attributes)
    returns (items: seq<Item>, to: nat, rest: seq<Byte>, b: Attributes)
    requires k <= 5
    ensures k <= to <= 5 && Leads(items, k, to) && SmallItems(items) && s == EncodeItems(items) + rest
    ensures Stops(to, rest, b, ParseTuples(s, k, a))
    decreases |s|
  {
    hide Assign, EncodeItem, IsUtf8, ParseTuples, Stops, Garbled, Misplaced, Oversized;
    if Passes(k, s) {
      var length := ReadUint16(s, 1);
      var tail, item := s[3 + length..], Item(s[0], s[3..3 + length]);
      PassesOn(s, k, a);
      var more;
      if s[0] == REQUESTED[k] {
        more, to, rest, b := ParseStops(tail, k + 1, Assign(a, k, item.value));
      } else {
        more, to, rest, b := ParseStops(tail, k, a);
      }
      items := [item] + more;
      assert items[1..] == more;
      ItemBytes(s, length);
      assert s == EncodeItem(item) + (EncodeItems(more) + rest);
    } else {
      StopsHere(s, k, a);
      items, to, rest, b := [], k, s, a;
    }
  }

  lemma {:induction false} LeadsTo(items: seq<Item>, rest: seq<Byte>, k: nat, to: nat, a: Attributes)
    returns (b: Attributes)
    requires k <= to <= 5 && Leads(items, k, to) && SmallItems(items)
    ensures ParseTuples(EncodeItems(items) + rest, k, a) == ParseTuples(rest, to, b)
    decreases |items|
  {
    if items == [] {
      b := a;
      assert EncodeItems(items) + rest == rest;
    } else {
      hide EncodeItem, Assign, IsUtf8;
      var more := EncodeItems(items[1..]) + rest;
      EncodedItem(items[0], more);
      assert EncodeItems(items) + rest == EncodeItem(items[0]) + more;
      if items[0].id == REQUESTED[k] {
        b := LeadsTo(items[1..], rest, k + 1, to, Assign(a, k, items[0].value));
      } else {
        b := LeadsTo(items[1..], rest, k, to, a);
      }
    }
  }

  lemma StopsNow(k: nat, rest: seq<Byte>, a: Attributes, r: Outcome)
    requires k <= 5 && Stops(k, rest, a, r) && !r.Complete?
    ensures ParseTuples(rest, k, a) == r
  {
    hide Assign, IsUtf8;
    assert rest != [] && k < 5 && rest[0] == REQUESTED[k] ==> rest[0] in REQUESTED;
  }

  lemma StopsIgnoresAttributes(k: nat, rest: seq<Byte>, a: Attributes, b: Attributes, r: Outcome)
    requires k <= 5 && Stops(k, rest, a, r) && !r.Complete?
    ensures Stops(k, rest, b, r)
  {
  }

  /** A response stops the parser where it stops, and for the reason for which it stops. */
  lemma StopsExactly(s: seq<Byte>, uid: nat, r: Outcome)
    requires uid < 0x1_0000_0000 && !r.Complete? && |s| >= HEADER_SIZE && s[0] == 0 && ReadUint32(s, 1) == uid
    ensures Parse(s, uid) == r <==> exists k, rest :: Reaches(s, uid, k, rest) && Stops(k, rest, NO_ATTRIBUTES, r)
  {
    hide ParseTuples, EncodeItems, EncodeHeader, ReadUint32, Leads, Stops;
    HeaderBytes(s, uid);
    HeaderLength(uid);
    if Parse(s, uid) == r {
      var items, k, rest, b := ParseStops(s[HEADER_SIZE..], 0, NO_ATTRIBUTES);
      StopsIgnoresAttributes(k, rest, b, NO_ATTRIBUTES, r);
      assert s == EncodeHeader(uid) + EncodeItems(items) + rest;
      assert Reaches(s, uid, k, rest);
    }
    if k, rest :| Reaches(s, uid, k, rest) && Stops(k, rest, NO_ATTRIBUTES, r) {
      var items: seq<Item> :|
        Leads(items, 0, k) && SmallItems(items) && s == EncodeHeader(uid) + EncodeItems(items) + rest;
      assert s[HEADER_SIZE..] == EncodeItems(items) + rest;
      var b := LeadsTo(items, rest, 0, k, NO_ATTRIBUTES);
      StopsIgnoresAttributes(k, rest, NO_ATTRIBUTES, b, r);
      StopsNow(k, rest, b, r);
    }
  }

  // ---------------------------------------------------------------- every answer

  /**
   Every answer but completion, on the bytes: what was read so far has a proper header and
   tuples in order, and what comes next is misplaced, too long, not UTF-8, unasked for, or not whole yet.
   */
  lemma AnswersExactly(s: seq<Byte>, uid: nat)
    requires uid < 0x1_0000_0000
    ensures Parse(s, uid) == Failed(WrongCommand) <==> |s| >= 5 && s[0] != 0
    ensures Parse(s, uid) == Failed(WrongUid) <==> |s| >= 5 && s[0] == 0 && !(EncodeHeader(uid) <= s)
    ensures Parse(s, uid) == Failed(OutOfOrder) <==> exists k, rest :: Reaches(s, uid, k, rest) && Misplaced(k, rest)
    ensures Parse(s, uid) == Failed(ValueTooLong) <==> exists k, rest :: Reaches(s, uid, k, rest) && Oversized(k, rest)
    ensures Parse(s, uid) == Failed(NotUtf8) <==> exists k, rest :: Reaches(s, uid, k, rest) && Garbled(k, rest)
    ensures Parse(s, uid) == Failed(TrailingData) <==> exists rest :: Reaches(s, uid, 5, rest) && rest != []
    ensures Parse(s, uid) == NeedMore <==> |s| < 5 || exists k, rest :: Reaches(s, uid, k, rest) && Unfinished(k, rest)
  {
    hide ParseTuples, EncodeItems, EncodeHeader, ReadUint32, Leads, Misplaced, Oversized, Garbled, Unfinished;
    HeaderBytes(s, uid);
    HeaderLength(uid);
    HeaderOutcome(s, uid);
    if |s| >= HEADER_SIZE && s[0] == 0 && ReadUint32(s, 1) == uid {
      StopsExactly(s, uid, Failed(OutOfOrder));
      StopsExactly(s, uid, Failed(ValueTooLong));
      StopsExactly(s, uid, Failed(NotUtf8));
      StopsExactly(s, uid, Failed(TrailingData));
      StopsExactly(s, uid, NeedMore);
      StopsExactly(s, uid, Failed(WrongCommand));
      StopsExactly(s, uid, Failed(WrongUid));
    } else {
      forall k, rest {
        ReachesHasHeader(s, uid, k, rest);
      }
    }
  }

  lemma ReachesHasHeader(s: seq<Byte>, uid: nat, k: nat, rest: seq<Byte>)
    requires uid < 0x1_0000_0000
    ensures Reaches(s, uid, k, rest) ==> EncodeHeader(uid) <= s
  {
    hide EncodeHeader, EncodeItems, Leads;
  }
}
