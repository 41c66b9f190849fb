/**
 The recursive D-Bus value codec over an abstract typed message tree.

 Values and wire trees are encoded and decoded at a depth and with a running count of values.
 What libdbus accepts as a signature, text, path or list of signatures is a parameter.
 */
module DbusCodec {
  import opened Common
  import opened DbusSignature

  const BASIC_CODES := "ybnqiuxtdsog"
  const MAX_SIGNATURE: nat := 255
  const INT_MAX: nat := 0x7fff_ffff

  datatype Limits = Limits(maxBytes: nat, maxDepth: nat, maxValues: nat)

  /** What libdbus says of a single complete type, of text, of a path and of a list of types. */
  datatype Validators = Validators(
    single: string -> bool, text: string -> bool, path: string -> bool, signatures: string -> bool)

  datatype Kind = Int16 | Uint16 | Int32 | Uint32 | Int64 | Uint64 | Double | Byte8

  datatype TextKind = Text | Path | SignatureText

  datatype Value =
    | Nothing
    | Boolean(flag: bool)
    | Fixed(kind: Kind, bits: int)
    | Str(textKind: TextKind, text: string)
    | Bytes(bytes: seq<Byte>)
    | List(elementSignature: string, values: seq<Value>)
    | Dictionary(keySignature: string, valueSignature: string, entries: seq<Pair>)
    | Record(fields: seq<Value>)
    | Variant(inner: Value)

  datatype Pair = Pair(key: Value, value: Value)

  datatype Wire =
    | WBoolean(raw: int)
    | WFixed(kind: Kind, bits: int)
    | WText(textKind: TextKind, text: string)
    | WArray(elementSignature: string, items: seq<Wire>)
    | WEntry(key: Wire, value: Wire)
    | WStruct(fields: seq<Wire>)
    | WVariant(signature: string, inner: Wire)

  datatype Counted<T> = Counted(value: T, count: nat)

  datatype Outcome<T> = Ok(result: T) | TooLarge | Invalid | WrongAccess {
    predicate IsFailure() {
      !Ok?
    }

    function PropagateFailure<U>(): (r: Outcome<U>)
      requires IsFailure()
    {
      if TooLarge? then TooLarge else if Invalid? then Invalid else WrongAccess
    }

    function Extract(): (r: T)
      requires !IsFailure()
    {
      result
    }
  }

  function KindCode(k: Kind): (c: char) {
    match k
    case Int16 => 'n'
    case Uint16 => 'q'
    case Int32 => 'i'
    case Uint32 => 'u'
    case Int64 => 'x'
    case Uint64 => 't'
    case Double => 'd'
    case Byte8 => 'y'
  }

  function TextCode(k: TextKind): (c: char) {
    match k
    case Text => 's'
    case Path => 'o'
    case SignatureText => 'g'
  }

  function Signature(v: Value): (s: string) {
    match v
    case Nothing => ""
    case Boolean(_) => "b"
    case Fixed(kind, _) => [KindCode(kind)]
    case Str(kind, _) => [TextCode(kind)]
    case Bytes(_) => "ay"
    case List(element, _) => "a" + element
    case Dictionary(key, value, _) => "a{" + key + value + "}"
    case Record(fields) => "(" + Signatures(fields) + ")"
    case Variant(_) => "v"
  }

  function Signatures(values: seq<Value>): (s: string) {
    if values == [] then "" else Signature(values[0]) + Signatures(values[1..])
  }

  predicate ValidSignature(check: Validators, s: string) {
    s != "" && |s| <= MAX_SIGNATURE && '\0' !in s && check.single(s)
  }

  predicate ValidText(check: Validators, kind: TextKind, text: string) {
    && '\0' !in text
    && match kind
       case Text => check.text(text)
       case Path => check.path(text)
       case SignatureText => check.signatures(text)
  }

  predicate ValidEntryTypes(check: Validators, key: string, value: string) {
    ValidSignature(check, key) && ValidSignature(check, value) && |key| == 1 && key[0] in BASIC_CODES
  }

  /** Element signatures that make the array's own signature read as a byte array or a dictionary. */
  predicate Misread(element: string) {
    element == "y" || (|element| >= 2 && element[0] == '{')
  }

  // ---------------------------------------------------------------- encoding

  function Encode(v: Value, limits: Limits, check: Validators, depth: nat, count: nat): (r: Outcome<Counted<Wire>>)
    decreases v
  {
    if depth > limits.maxDepth || count + 1 > limits.maxValues then TooLarge
    else
      match v
      case Nothing => Invalid
      case Boolean(flag) => Ok(Counted(WBoolean(if flag then 1 else 0), count + 1))
      case Fixed(kind, bits) => Ok(Counted(WFixed(kind, bits), count + 1))
      case Str(kind, text) =>
        if ValidText(check, kind, text) then Ok(Counted(WText(kind, text), count + 1)) else Invalid
      case Bytes(bytes) =>
        if |bytes| > limits.maxBytes || |bytes| > INT_MAX then TooLarge
        else Ok(Counted(WArray("y", seq(|bytes|, i requires 0 <= i < |bytes| => WFixed(Byte8, bytes[i]))), count + 1))
      case Dictionary(key, value, entries) =>
        if !ValidEntryTypes(check, key, value) then Invalid
        else
          var items :- EncodePairs(entries, key, value, limits, check, depth + 1, count + 1);
          Ok(Counted(WArray("{" + key + value + "}", items.value), items.count))
      case List(element, values) =>
        if Misread(element) then WrongAccess
        else if !ValidSignature(check, element) then Invalid
        else if exists i :: 0 <= i < |values| && Signature(values[i]) != element then Invalid
        else
          var items :- EncodeAll(values, limits, check, depth + 1, count + 1);
          Ok(Counted(WArray(element, items.value), items.count))
      case Record(fields) =>
        var items :- EncodeAll(fields, limits, check, depth + 1, count + 1);
        Ok(Counted(WStruct(items.value), items.count))
      case Variant(inner) =>
        if !ValidSignature(check, Signature(inner)) then Invalid
        else
          var w :- Encode(inner, limits, check, depth + 1, count + 1);
          Ok(Counted(WVariant(Signature(inner), w.value), w.count))
  }

  function EncodeAll(values: seq<Value>, limits: Limits, check: Validators, depth: nat, count: nat)
    : (r: Outcome<Counted<seq<Wire>>>)
    decreases values
  {
    if values == [] then Ok(Counted([], count))
    else
      var w :- Encode(values[0], limits, check, depth, count);
      var ws :- EncodeAll(values[1..], limits, check, depth, w.count);
      Ok(Counted([w.value] + ws.value, ws.count))
  }

  function EncodePair(entry: Pair, key: string, value: string, limits: Limits, check: Validators,
                      depth: nat, count: nat)
    : (r: Outcome<Counted<Wire>>)
    decreases entry
  {
    if Signature(entry.key) != key || Signature(entry.value) != value then Invalid
    else
      var k :- Encode(entry.key, limits, check, depth, count);
      var v :- Encode(entry.value, limits, check, depth, k.count);
      Ok(Counted(WEntry(k.value, v.value), v.count))
  }

  function EncodePairs(entries: seq<Pair>, key: string, value: string, limits: Limits, check: Validators,
                       depth: nat, count: nat)
    : (r: Outcome<Counted<seq<Wire>>>)
    decreases entries
  {
    if entries == [] then Ok(Counted([], count))
    else
      var w :- EncodePair(entries[0], key, value, limits, check, depth, count);
      var ws :- EncodePairs(entries[1..], key, value, limits, check, depth, w.count);
      Ok(Counted([w.value] + ws.value, ws.count))
  }

  // ---------------------------------------------------------------- decoding

  function ByteOf(w: Wire): (b: Byte) {
    if w.WFixed? && 0 <= w.bits < 256 then w.bits else 0
  }

  function Decode(w: Wire, limits: Limits, depth: nat, count: nat): (r: Outcome<Counted<Value>>)
    decreases w
  {
    if depth > limits.maxDepth || count + 1 > limits.maxValues then TooLarge
    else
      match w
      case WBoolean(raw) => Ok(Counted(Boolean(raw != 0), count + 1))
      case WFixed(kind, bits) => Ok(Counted(Fixed(kind, bits), count + 1))
      case WText(kind, text) => Ok(Counted(Str(kind, text), count + 1))
      case WArray(element, items) =>
        if element == "y" then
          Ok(Counted(Bytes(seq(|items|, i requires 0 <= i < |items| => ByteOf(items[i]))), count + 1))
        else if |element| >= 2 && element[0] == '{' && element[|element| - 1] == '}' then
          var inner := element[1..|element| - 1];
          var keyLength := TypeLength(inner);
          if keyLength == 0 || keyLength >= |inner| then Invalid
          else
            var entries :- DecodePairs(items, limits, depth + 1, count + 1);
            Ok(Counted(Dictionary(inner[..keyLength], inner[keyLength..], entries.value), entries.count))
        else
          var values :- DecodeAll(items, limits, depth + 1, count + 1);
          Ok(Counted(List(element, values.value), values.count))
      case WStruct(fields) =>
        var values :- DecodeAll(fields, limits, depth + 1, count + 1);
        Ok(Counted(Record(values.value), values.count))
      case WVariant(_, inner) =>
        var v :- Decode(inner, limits, depth + 1, count + 1);
        Ok(Counted(Variant(v.value), v.count))
      case WEntry(_, _) => Invalid
  }

  function DecodeAll(items: seq<Wire>, limits: Limits, depth: nat, count: nat): (r: Outcome<Counted<seq<Value>>>)
    decreases items
  {
    if items == [] then Ok(Counted([], count))
    else
      var v :- Decode(items[0], limits, depth, count);
      var vs :- DecodeAll(items[1..], limits, depth, v.count);
      Ok(Counted([v.value] + vs.value, vs.count))
  }

  function DecodePair(item: Wire, limits: Limits, depth: nat, count: nat): (r: Outcome<Counted<Pair>>)
    decreases item
  {
    if !item.WEntry? then Invalid
    else
      var k :- Decode(item.key, limits, depth, count);
      var v :- Decode(item.value, limits, depth, k.count);
      Ok(Counted(Pair(k.value, v.value), v.count))
  }

  function DecodePairs(items: seq<Wire>, limits: Limits, depth: nat, count: nat): (r: Outcome<Counted<seq<Pair>>>)
    decreases items
  {
    if items == [] then Ok(Counted([], count))
    else
      var p :- DecodePair(items[0], limits, depth, count);
      var ps :- DecodePairs(items[1..], limits, depth, p.count);
      Ok(Counted([p.value] + ps.value, ps.count))
  }

  // ---------------------------------------------------------------- round trip

  /** A value the encoder accepts comes back unchanged, with the same count, under the same limits. */
  lemma {:induction false} RoundTrip(v: Value, limits: Limits, check: Validators, depth: nat, count: nat)
    requires Encode(v, limits, check, depth, count).Ok?
    ensures var w := Encode(v, limits, check, depth, count).result;
      Decode(w.value, limits, depth, count) == Ok(Counted(v, w.count))
    decreases v
  {
    hide ValidSignature, ValidText, Signatures;
    match v
    case Bytes(bytes) =>
      var w := Encode(v, limits, check, depth, count).result.value;
      assert seq(|w.items|, i requires 0 <= i < |w.items| => ByteOf(w.items[i])) == bytes;
    case Dictionary(key, value, entries) =>
      PairsRoundTrip(entries, key, value, limits, check, depth + 1, count + 1);
      EntrySignature(check, key, value);
    case List(element, values) =>
      AllRoundTrip(values, limits, check, depth + 1, count + 1);
    case Record(fields) => AllRoundTrip(fields, limits, check, depth + 1, count + 1);
    case Variant(inner) => RoundTrip(inner, limits, check, depth + 1, count + 1);
    case _ =>
  }

  lemma EntrySignature(check: Validators, key: string, value: string)
    requires ValidEntryTypes(check, key, value)
    ensures var element := "{" + key + value + "}";
      && element[1..|element| - 1] == key + value && element != "y" && element[|element| - 1] == '}'
      && TypeLength(key + value) == |key| < |key + value|
      && (key + value)[..|key|] == key && (key + value)[|key|..] == value
  {
    assert (key + value)[0] == key[0];
  }

  lemma {:induction false} AllRoundTrip(values: seq<Value>, limits: Limits, check: Validators, depth: nat, count: nat)
    requires EncodeAll(values, limits, check, depth, count).Ok?
    ensures var w := EncodeAll(values, limits, check, depth, count).result;
      DecodeAll(w.value, limits, depth, count) == Ok(Counted(values, w.count))
    decreases values
  {
    hide Encode, Decode;
    if values != [] {
      RoundTrip(values[0], limits, check, depth, count);
      AllRoundTrip(values[1..], limits, check, depth, Encode(values[0], limits, check, depth, count).result.count);
      assert values == [values[0]] + values[1..];
    }
  }

  lemma {:induction false} PairRoundTrip(
    entry: Pair, key: string, value: string, limits: Limits, check: Validators, depth: nat, count: nat)
    requires EncodePair(entry, key, value, limits, check, depth, count).Ok?
    ensures var w := EncodePair(entry, key, value, limits, check, depth, count).result;
      DecodePair(w.value, limits, depth, count) == Ok(Counted(entry, w.count))
    decreases entry
  {
    hide Encode, Decode, Signature;
    RoundTrip(entry.key, limits, check, depth, count);
    RoundTrip(entry.value, limits, check, depth, Encode(entry.key, limits, check, depth, count).result.count);
  }

  lemma {:induction false} PairsRoundTrip(
    entries: seq<Pair>, key: string, value: string, limits: Limits, check: Validators, depth: nat, count: nat)
    requires EncodePairs(entries, key, value, limits, check, depth, count).Ok?
    ensures var w := EncodePairs(entries, key, value, limits, check, depth, count).result;
      DecodePairs(w.value, limits, depth, count) == Ok(Counted(entries, w.count))
    decreases entries
  {
    hide EncodePair, DecodePair;
    if entries != [] {
      PairRoundTrip(entries[0], key, value, limits, check, depth, count);
      PairsRoundTrip(entries[1..], key, value, limits, check, depth,
                     EncodePair(entries[0], key, value, limits, check, depth, count).result.count);
      assert entries == [entries[0]] + entries[1..];
    }
  }

  // ---------------------------------------------------------------- what is accepted

  function Size(v: Value): (n: nat)
    ensures n >= 1
    decreases v
  {
    match v
    case List(_, values) => 1 + SizeAll(values)
    case Dictionary(_, _, entries) => 1 + SizePairs(entries)
    case Record(fields) => 1 + SizeAll(fields)
    case Variant(inner) => 1 + Size(inner)
    case _ => 1
  }

  function SizeAll(values: seq<Value>): (n: nat)
    decreases values
  {
    if values == [] then 0 else Size(values[0]) + SizeAll(values[1..])
  }

  function SizePair(p: Pair): (n: nat)
    decreases p
  {
    Size(p.key) + Size(p.value)
  }

  function SizePairs(entries: seq<Pair>): (n: nat)
    decreases entries
  {
    if entries == [] then 0 else SizePair(entries[0]) + SizePairs(entries[1..])
  }

  /** No value inside is nested deeper than `room` levels. */
  predicate Shallow(v: Value, room: int)
    decreases v
  {
    && room >= 0
    && match v
       case List(_, values) => ShallowAll(values, room - 1)
       case Dictionary(_, _, entries) => ShallowPairs(entries, room - 1)
       case Record(fields) => ShallowAll(fields, room - 1)
       case Variant(inner) => Shallow(inner, room - 1)
       case _ => true
  }

  predicate ShallowAll(values: seq<Value>, room: int)
    decreases values
  {
    values == [] || (Shallow(values[0], room) && ShallowAll(values[1..], room))
  }

  predicate ShallowPair(p: Pair, room: int)
    decreases p
  {
    Shallow(p.key, room) && Shallow(p.value, room)
  }

  predicate ShallowPairs(entries: seq<Pair>, room: int)
    decreases entries
  {
    entries == [] || (ShallowPair(entries[0], room) && ShallowPairs(entries[1..], room))
  }

  /** Every part has the type its container declares, and every text and byte array is admissible. */
  predicate WellTyped(v: Value, check: Validators, maxBytes: nat)
    decreases v
  {
    match v
    case Nothing => false
    case Boolean(_) => true
    case Fixed(_, _) => true
    case Str(kind, text) => ValidText(check, kind, text)
    case Bytes(bytes) => |bytes| <= maxBytes && |bytes| <= INT_MAX
    case List(element, values) =>
      && !Misread(element) && ValidSignature(check, element)
      && (forall i :: 0 <= i < |values| ==> Signature(values[i]) == element)
      && WellTypedAll(values, check, maxBytes)
    case Dictionary(key, value, entries) =>
      ValidEntryTypes(check, key, value) && WellTypedPairs(entries, key, value, check, maxBytes)
    case Record(fields) => WellTypedAll(fields, check, maxBytes)
    case Variant(inner) => ValidSignature(check, Signature(inner)) && WellTyped(inner, check, maxBytes)
  }

  predicate WellTypedAll(values: seq<Value>, check: Validators, maxBytes: nat)
    decreases values
  {
    values == [] || (WellTyped(values[0], check, maxBytes) && WellTypedAll(values[1..], check, maxBytes))
  }

  predicate WellTypedPair(p: Pair, key: string, value: string, check: Validators, maxBytes: nat)
    decreases p
  {
    && Signature(p.key) == key && Signature(p.value) == value
    && WellTyped(p.key, check, maxBytes) && WellTyped(p.value, check, maxBytes)
  }

  predicate WellTypedPairs(entries: seq<Pair>, key: string, value: string, check: Validators, maxBytes: nat)
    decreases entries
  {
    entries == [] ||
    (&& WellTypedPair(entries[0], key, value, check, maxBytes)
     && WellTypedPairs(entries[1..], key, value, check, maxBytes))
  }

  /** The encoder accepts exactly the well-typed values within all three limits, and counts every value once. */
  lemma {:induction false} EncodeAcceptsIff(v: Value, limits: Limits, check: Validators, depth: nat, count: nat)
    ensures Encode(v, limits, check, depth, count).Ok? <==>
      WellTyped(v, check, limits.maxBytes) && Shallow(v, limits.maxDepth - depth) && count + Size(v) <= limits.maxValues
    ensures Encode(v, limits, check, depth, count).Ok? ==>
      Encode(v, limits, check, depth, count).result.count == count + Size(v)
    decreases v
  {
    hide ValidSignature, ValidText, ValidEntryTypes, Misread, Signature;
    match v
    case Dictionary(key, value, entries) =>
      PairsAcceptedIff(entries, key, value, limits, check, depth + 1, count + 1);
    case List(element, values) => AllAcceptedIff(values, limits, check, depth + 1, count + 1);
    case Record(fields) => AllAcceptedIff(fields, limits, check, depth + 1, count + 1);
    case Variant(inner) => EncodeAcceptsIff(inner, limits, check, depth + 1, count + 1);
    case _ =>
  }

  lemma {:induction false} AllAcceptedIff(values: seq<Value>, limits: Limits, check: Validators, depth: nat, count: nat)
    ensures EncodeAll(values, limits, check, depth, count).Ok? <==>
      && WellTypedAll(values, check, limits.maxBytes) && ShallowAll(values, limits.maxDepth - depth)
      && (values == [] || count + SizeAll(values) <= limits.maxValues)
    ensures EncodeAll(values, limits, check, depth, count).Ok? ==>
      EncodeAll(values, limits, check, depth, count).result.count == count + SizeAll(values)
    decreases values
  {
    hide Encode, WellTyped, Shallow, Size;
    if values != [] {
      EncodeAcceptsIff(values[0], limits, check, depth, count);
      AllAcceptedIff(values[1..], limits, check, depth, count + Size(values[0]));
    }
  }

  lemma {:induction false} PairAcceptedIff(
    p: Pair, key: string, value: string, limits: Limits, check: Validators, depth: nat, count: nat)
    ensures EncodePair(p, key, value, limits, check, depth, count).Ok? <==>
      && WellTypedPair(p, key, value, check, limits.maxBytes) && ShallowPair(p, limits.maxDepth - depth)
      && count + SizePair(p) <= limits.maxValues
    ensures EncodePair(p, key, value, limits, check, depth, count).Ok? ==>
      EncodePair(p, key, value, limits, check, depth, count).result.count == count + SizePair(p)
    decreases p
  {
    hide Encode, WellTyped, Shallow, Size;
    EncodeAcceptsIff(p.key, limits, check, depth, count);
    EncodeAcceptsIff(p.value, limits, check, depth, count + Size(p.key));
  }

  lemma {:induction false} PairsAcceptedIff(
    entries: seq<Pair>, key: string, value: string, limits: Limits, check: Validators, depth: nat, count: nat)
    ensures EncodePairs(entries, key, value, limits, check, depth, count).Ok? <==>
      && WellTypedPairs(entries, key, value, check, limits.maxBytes) && ShallowPairs(entries, limits.maxDepth - depth)
      && (entries == [] || count + SizePairs(entries) <= limits.maxValues)
    ensures EncodePairs(entries, key, value, limits, check, depth, count).Ok? ==>
      EncodePairs(entries, key, value, limits, check, depth, count).result.count == count + SizePairs(entries)
    decreases entries
  {
    hide EncodePair, WellTypedPair, ShallowPair, SizePair;
    if entries != [] {
      PairAcceptedIff(entries[0], key, value, limits, check, depth, count);
      PairsAcceptedIff(entries[1..], key, value, limits, check, depth, count + SizePair(entries[0]));
    }
  }

  /** A value of consistent types and valid texts is only ever refused for a limit. */
  lemma {:induction false} WellTypedFailsByLimitOnly(
    v: Value, limits: Limits, check: Validators, depth: nat, count: nat)
    requires WellTyped(v, check, INT_MAX)
    ensures Encode(v, limits, check, depth, count).Ok? || Encode(v, limits, check, depth, count) == TooLarge
    decreases v
  {
    hide ValidSignature, ValidText, ValidEntryTypes, Misread, Signature;
    match v
    case Dictionary(key, value, entries) =>
      PairsFailByLimitOnly(entries, key, value, limits, check, depth + 1, count + 1);
    case List(element, values) => AllFailByLimitOnly(values, limits, check, depth + 1, count + 1);
    case Record(fields) => AllFailByLimitOnly(fields, limits, check, depth + 1, count + 1);
    case Variant(inner) => WellTypedFailsByLimitOnly(inner, limits, check, depth + 1, count + 1);
    case _ =>
  }

  lemma {:induction false} AllFailByLimitOnly(
    values: seq<Value>, limits: Limits, check: Validators, depth: nat, count: nat)
    requires WellTypedAll(values, check, INT_MAX)
    ensures EncodeAll(values, limits, check, depth, count).Ok?
         || EncodeAll(values, limits, check, depth, count) == TooLarge
    decreases values
  {
    hide Encode, WellTyped;
    if values != [] {
      WellTypedFailsByLimitOnly(values[0], limits, check, depth, count);
      var w := Encode(values[0], limits, check, depth, count);
      if w.Ok? {
        AllFailByLimitOnly(values[1..], limits, check, depth, w.result.count);
      }
    }
  }

  lemma {:induction false} PairFailsByLimitOnly(
    p: Pair, key: string, value: string, limits: Limits, check: Validators, depth: nat, count: nat)
    requires WellTypedPair(p, key, value, check, INT_MAX)
    ensures EncodePair(p, key, value, limits, check, depth, count).Ok?
         || EncodePair(p, key, value, limits, check, depth, count) == TooLarge
    decreases p
  {
    hide Encode, WellTyped;
    WellTypedFailsByLimitOnly(p.key, limits, check, depth, count);
    var k := Encode(p.key, limits, check, depth, count);
    if k.Ok? {
      WellTypedFailsByLimitOnly(p.value, limits, check, depth, k.result.count);
    }
  }

  lemma {:induction false} PairsFailByLimitOnly(
    entries: seq<Pair>, key: string, value: string, limits: Limits, check: Validators, depth: nat, count: nat)
    requires WellTypedPairs(entries, key, value, check, INT_MAX)
    ensures EncodePairs(entries, key, value, limits, check, depth, count).Ok?
         || EncodePairs(entries, key, value, limits, check, depth, count) == TooLarge
    decreases entries
  {
    hide EncodePair, WellTypedPair;
    if entries != [] {
      PairFailsByLimitOnly(entries[0], key, value, limits, check, depth, count);
      var w := EncodePair(entries[0], key, value, limits, check, depth, count);
      if w.Ok? {
        PairsFailByLimitOnly(entries[1..], key, value, limits, check, depth, w.result.count);
      }
    }
  }

  /** Whatever is decoded is within the depth and value limits, and was counted exactly. */
  lemma {:induction false} DecodedWithinLimits(w: Wire, limits: Limits, depth: nat, count: nat)
    requires Decode(w, limits, depth, count).Ok?
    ensures var v := Decode(w, limits, depth, count).result;
      v.count == count + Size(v.value) <= limits.maxValues && Shallow(v.value, limits.maxDepth - depth)
    decreases w
  {
    hide TypeLength;
    match w
    case WArray(element, items) =>
      if element != "y" {
        if |element| >= 2 && element[0] == '{' && element[|element| - 1] == '}' {
          PairsWithinLimits(items, limits, depth + 1, count + 1);
        } else {
          AllWithinLimits(items, limits, depth + 1, count + 1);
        }
      }
    case WStruct(fields) => AllWithinLimits(fields, limits, depth + 1, count + 1);
    case WVariant(_, inner) => DecodedWithinLimits(inner, limits, depth + 1, count + 1);
    case _ =>
  }

  lemma {:induction false} AllWithinLimits(items: seq<Wire>, limits: Limits, depth: nat, count: nat)
    requires DecodeAll(items, limits, depth, count).Ok? && count <= limits.maxValues
    ensures var v := DecodeAll(items, limits, depth, count).result;
      v.count == count + SizeAll(v.value) <= limits.maxValues && ShallowAll(v.value, limits.maxDepth - depth)
    decreases items
  {
    hide Decode, Size, Shallow;
    if items != [] {
      DecodedWithinLimits(items[0], limits, depth, count);
      AllWithinLimits(items[1..], limits, depth, Decode(items[0], limits, depth, count).result.count);
    }
  }

  lemma {:induction false} PairsWithinLimits(items: seq<Wire>, limits: Limits, depth: nat, count: nat)
    requires DecodePairs(items, limits, depth, count).Ok? && count <= limits.maxValues
    ensures var v := DecodePairs(items, limits, depth, count).result;
      v.count == count + SizePairs(v.value) <= limits.maxValues && ShallowPairs(v.value, limits.maxDepth - depth)
    decreases items
  {
    hide DecodePair, SizePair, ShallowPair;
    if items != [] {
      PairWithinLimits(items[0], limits, depth, count);
      PairsWithinLimits(items[1..], limits, depth, DecodePair(items[0], limits, depth, count).result.count);
    }
  }

  lemma {:induction false} PairWithinLimits(item: Wire, limits: Limits, depth: nat, count: nat)
    requires DecodePair(item, limits, depth, count).Ok?
    ensures var v := DecodePair(item, limits, depth, count).result;
      v.count == count + SizePair(v.value) <= limits.maxValues && ShallowPair(v.value, limits.maxDepth - depth)
    decreases item
  {
    hide Decode, Size, Shallow;
    DecodedWithinLimits(item.key, limits, depth, count);
    DecodedWithinLimits(item.value, limits, depth, Decode(item.key, limits, depth, count).result.count);
  }

  // ---------------------------------------------------------------- argument lists

  /** What becomes of a message that holds `done` as `rest` is appended; `size` is what libdbus says of its size. */
  function EncodedFrom(
    done: seq<Wire>, rest: seq<Value>, count: nat, limits: Limits, check: Validators, size: seq<Wire> -> nat)
    : (r: Outcome<seq<Wire>>)
    decreases |rest|
  {
    if rest == [] then (if size(done) <= limits.maxBytes then Ok(done) else TooLarge)
    else
      var w :- Encode(rest[0], limits, check, 0, count);
      if size(done + [w.value]) > limits.maxBytes then TooLarge
      else EncodedFrom(done + [w.value], rest[1..], w.count, limits, check, size)
  }

  method EncodeArguments(arguments: seq<Value>, limits: Limits, check: Validators, size: seq<Wire> -> nat)
    returns (r: Outcome<seq<Wire>>)
    ensures r == EncodedFrom([], arguments, 0, limits, check, size)
  {
    hide Encode;
    var message, count := [], 0;
    for i := 0 to |arguments|
      invariant EncodedFrom([], arguments, 0, limits, check, size) ==
        EncodedFrom(message, arguments[i..], count, limits, check, size)
    {
      assert arguments[i..][1..] == arguments[i + 1..];
      var w := Encode(arguments[i], limits, check, 0, count);
      if w.IsFailure() {
        return w.PropagateFailure();
      }
      message, count := message + [w.result.value], w.result.count;
      if size(message) > limits.maxBytes {
        return TooLarge;
      }
    }
    r := if size(message) <= limits.maxBytes then Ok(message) else TooLarge;
  }

  /** What is decoded already, then what the rest gives. */
  function Prepended(values: seq<Value>, rest: Outcome<Counted<seq<Value>>>): (r: Outcome<seq<Value>>) {
    if rest.IsFailure() then rest.PropagateFailure() else Ok(values + rest.result.value)
  }

  function DecodedArguments(message: seq<Wire>, limits: Limits, size: seq<Wire> -> nat): (r: Outcome<seq<Value>>) {
    if size(message) > limits.maxBytes then TooLarge
    else
      var vs :- DecodeAll(message, limits, 0, 0);
      Ok(vs.value)
  }

  method DecodeArguments(message: seq<Wire>, limits: Limits, size: seq<Wire> -> nat) returns (r: Outcome<seq<Value>>)
    ensures r == DecodedArguments(message, limits, size)
  {
    hide Decode;
    if size(message) > limits.maxBytes {
      return TooLarge;
    }
    var values, count := [], 0;
    ghost var all := DecodeAll(message, limits, 0, 0);
    assert all.Ok? ==> [] + all.result.value == all.result.value;
    for i := 0 to |message|
      invariant Prepended([], all) == Prepended(values, DecodeAll(message[i..], limits, 0, count))
    {
      assert message[i..][1..] == message[i + 1..];
      var v := Decode(message[i], limits, 0, count);
      if v.IsFailure() {
        return v.PropagateFailure();
      }
      var rest := DecodeAll(message[i + 1..], limits, 0, v.result.count);
      assert rest.Ok? ==>
        values + ([v.result.value] + rest.result.value) == values + [v.result.value] + rest.result.value;
      values, count := values + [v.result.value], v.result.count;
    }
    assert values + [] == values;
    r := Ok(values);
  }

  /** The arguments fit when they are encodable and no message on the way is too large. */
  lemma {:induction false} ArgumentsFrom(
    done: seq<Wire>, rest: seq<Value>, count: nat, limits: Limits, check: Validators, size: seq<Wire> -> nat)
    ensures var all := EncodeAll(rest, limits, check, 0, count);
      var r := EncodedFrom(done, rest, count, limits, check, size);
      && (r.Ok? <==>
            && all.Ok? && size(done + all.result.value) <= limits.maxBytes
            && forall k :: 0 < k <= |all.result.value| ==> size(done + all.result.value[..k]) <= limits.maxBytes)
      && (r.Ok? ==> r.result == done + all.result.value)
    decreases |rest|
  {
    hide Encode;
    if rest == [] {
      assert done + [] == done;
    } else {
      var w := Encode(rest[0], limits, check, 0, count);
      if w.Ok? {
        var next := done + [w.result.value];
        ArgumentsFrom(next, rest[1..], w.result.count, limits, check, size);
        var ws := EncodeAll(rest[1..], limits, check, 0, w.result.count);
        if ws.Ok? {
          AppendedSizes(done, w.result.value, ws.result.value, limits.maxBytes, size);
        }
      }
    }
  }

  lemma AppendedSizes(done: seq<Wire>, w: Wire, ws: seq<Wire>, bound: nat, size: seq<Wire> -> nat)
    ensures done + [w] + ws == done + ([w] + ws)
    ensures (forall k :: 0 < k <= |[w] + ws| ==> size(done + ([w] + ws)[..k]) <= bound) <==>
      size(done + [w]) <= bound && forall k :: 0 < k <= |ws| ==> size(done + [w] + ws[..k]) <= bound
  {
    forall k | 0 <= k <= |ws| ensures done + ([w] + ws)[..k + 1] == done + [w] + ws[..k] {
    }
    assert done + [w] + ws[..0] == done + [w];
    if forall k :: 0 < k <= |[w] + ws| ==> size(done + ([w] + ws)[..k]) <= bound {
      forall k | 0 <= k <= |ws| ensures size(done + [w] + ws[..k]) <= bound {
        assert size(done + ([w] + ws)[..k + 1]) <= bound;
      }
    }
    if size(done + [w]) <= bound && forall k :: 0 < k <= |ws| ==> size(done + [w] + ws[..k]) <= bound {
      forall k | 0 < k <= |[w] + ws| ensures size(done + ([w] + ws)[..k]) <= bound {
        assert done + ([w] + ws)[..(k - 1) + 1] == done + [w] + ws[..k - 1];
      }
    }
  }

  /**
   When appending never makes a message smaller, a list of arguments is accepted exactly when
   every one is well-typed and shallow enough, all together are few enough, and the whole
   message is small enough: the checks after each value refuse nothing that the last would not.
   */
  lemma ArgumentsAcceptedIff(arguments: seq<Value>, limits: Limits, check: Validators, size: seq<Wire> -> nat)
    requires forall a, b :: size(a) <= size(a + b)
    ensures var all := EncodeAll(arguments, limits, check, 0, 0);
      EncodedFrom([], arguments, 0, limits, check, size).Ok? <==>
        && WellTypedAll(arguments, check, limits.maxBytes) && ShallowAll(arguments, limits.maxDepth)
        && (arguments == [] || SizeAll(arguments) <= limits.maxValues)
        && all.Ok? && size(all.result.value) <= limits.maxBytes
  {
    hide EncodeAll, EncodedFrom, WellTypedAll, ShallowAll, SizeAll;
    AllAcceptedIff(arguments, limits, check, 0, 0);
    ArgumentsFrom([], arguments, 0, limits, check, size);
    var all := EncodeAll(arguments, limits, check, 0, 0);
    if all.Ok? {
      var ws := all.result.value;
      assert [] + ws == ws;
      forall k | 0 < k <= |ws| ensures size([] + ws[..k]) <= size(ws) {
        assert ws[..k] + ws[k..] == ws && [] + ws[..k] == ws[..k];
      }
    }
  }

  /** An argument list that is sent is received unchanged, whatever sizes libdbus reports. */
  lemma ArgumentsRoundTrip(arguments: seq<Value>, limits: Limits, check: Validators, size: seq<Wire> -> nat)
    requires EncodedFrom([], arguments, 0, limits, check, size).Ok?
    ensures DecodedArguments(EncodedFrom([], arguments, 0, limits, check, size).result, limits, size) == Ok(arguments)
  {
    hide EncodeAll, DecodeAll, EncodedFrom;
    ArgumentsFrom([], arguments, 0, limits, check, size);
    var ws := EncodeAll(arguments, limits, check, 0, 0).result.value;
    assert [] + ws == ws;
    AllRoundTrip(arguments, limits, check, 0, 0);
  }

  // ---------------------------------------------------------------- signatures of values

  ghost predicate IsSignature(s: string, t: Type) {
    WellFormed(t) && Sig(t) == s
  }

  /** libdbus accepts complete types only. */
  ghost predicate Sound(check: Validators) {
    forall s :: check.single(s) ==> exists t :: IsSignature(s, t)
  }

  /** The type of an encodable value, whose signature the value reports. */
  lemma {:induction false} TypeOfValue(v: Value, check: Validators, maxBytes: nat) returns (t: Type)
    requires Sound(check) && WellTyped(v, check, maxBytes)
    ensures IsSignature(Signature(v), t)
    decreases v
  {
    match v
    case Nothing =>
    case Boolean(_) => t := Single('b');
    case Fixed(kind, _) => t := Single(KindCode(kind));
    case Str(kind, _) => t := Single(TextCode(kind));
    case Bytes(_) =>
      t := Array(Single('y'));
      assert Sig(Single('y')) == "y";
    case List(element, _) =>
      var e :| IsSignature(element, e);
      t := Array(e);
    case Dictionary(key, value, _) =>
      var k :| IsSignature(key, k);
      var u :| IsSignature(value, u);
      t := Array(Entry(k, u));
      assert "a{" + key + value + "}" == "a" + ("{" + key + value + "}");
    case Record(fields) =>
      var ts := TypesOfValues(fields, check, maxBytes);
      t := Struct(ts);
    case Variant(_) => t := Single('v');
  }

  lemma {:induction false} TypesOfValues(values: seq<Value>, check: Validators, maxBytes: nat) returns (ts: seq<Type>)
    requires Sound(check) && WellTypedAll(values, check, maxBytes)
    ensures SigAll(ts) == Signatures(values) && forall i :: 0 <= i < |ts| ==> WellFormed(ts[i])
    decreases values
  {
    if values == [] {
      ts := [];
    } else {
      var t := TypeOfValue(values[0], check, maxBytes);
      var rest := TypesOfValues(values[1..], check, maxBytes);
      ts := [t] + rest;
    }
  }

  /** The signature of an encodable value is found at the start of any text. */
  lemma LengthOfValueSignature(v: Value, check: Validators, maxBytes: nat, rest: string)
    requires Sound(check) && WellTyped(v, check, maxBytes)
    ensures TypeLength(Signature(v) + rest) == |Signature(v)| > 0
  {
    var t := TypeOfValue(v, check, maxBytes);
    LengthOfSig(t, rest);
  }
}
