/**
 What the codec puts on the wire is consistently typed, with the type codes of the D-Bus
 specification; and a value within all limits is refused for its types only.
 */
module DbusWire {
  import opened Common
  import opened DbusSignature
  import opened DbusCodec

  /** The signature a message iterator reports for a wire value. */
  function WireSignature(w: Wire): (s: string) {
    match w
    case WBoolean(_) => "b"
    case WFixed(kind, _) => [KindCode(kind)]
    case WText(kind, _) => [TextCode(kind)]
    case WArray(element, _) => "a" + element
    case WEntry(key, value) => "{" + WireSignature(key) + WireSignature(value) + "}"
    case WStruct(fields) => "(" + WireSignatures(fields) + ")"
    case WVariant(_, _) => "v"
  }

  function WireSignatures(ws: seq<Wire>): (s: string) {
    if ws == [] then "" else WireSignature(ws[0]) + WireSignatures(ws[1..])
  }

  /** Every array holds what its element signature says, and every variant what its signature says. */
  predicate Consistent(w: Wire) {
    match w
    case WArray(element, items) =>
      forall i :: 0 <= i < |items| ==> Consistent(items[i]) && WireSignature(items[i]) == element
    case WEntry(key, value) => Consistent(key) && Consistent(value)
    case WStruct(fields) => forall i :: 0 <= i < |fields| ==> Consistent(fields[i])
    case WVariant(signature, inner) => Consistent(inner) && WireSignature(inner) == signature
    case _ => true
  }

  // ---------------------------------------------------------------- what is encoded

  /** What is encoded is consistent, and has on the wire the signature that the value reports. */
  lemma {:induction false} EncodedIsConsistent(v: Value, limits: Limits, check: Validators, depth: nat, count: nat)
    requires Encode(v, limits, check, depth, count).Ok?
    ensures var w := Encode(v, limits, check, depth, count).result.value;
      Consistent(w) && WireSignature(w) == Signature(v)
    decreases v
  {
    hide ValidSignature, ValidText, ValidEntryTypes, Misread;
    match v
    case Dictionary(key, value, entries) =>
      PairsAreConsistent(entries, key, value, limits, check, depth + 1, count + 1);
      assert "a{" + key + value + "}" == "a" + ("{" + key + value + "}");
    case List(element, values) => AllAreConsistent(values, limits, check, depth + 1, count + 1);
    case Record(fields) => AllAreConsistent(fields, limits, check, depth + 1, count + 1);
    case Variant(inner) => EncodedIsConsistent(inner, limits, check, depth + 1, count + 1);
    case Bytes(bytes) => BytesAreConsistent(v, limits, check, depth, count);
    case _ =>
  }

  lemma BytesAreConsistent(v: Value, limits: Limits, check: Validators, depth: nat, count: nat)
    requires v.Bytes? && Encode(v, limits, check, depth, count).Ok?
    ensures var w := Encode(v, limits, check, depth, count).result.value;
      Consistent(w) && WireSignature(w) == Signature(v)
  {
    assert KindCode(Byte8) == 'y';
  }

  lemma {:induction false} AllAreConsistent(
    values: seq<Value>, limits: Limits, check: Validators, depth: nat, count: nat)
    requires EncodeAll(values, limits, check, depth, count).Ok?
    ensures var ws := EncodeAll(values, limits, check, depth, count).result.value;
      && |ws| == |values| && WireSignatures(ws) == Signatures(values)
      && forall i :: 0 <= i < |ws| ==> Consistent(ws[i]) && WireSignature(ws[i]) == Signature(values[i])
    decreases values
  {
    hide Encode, Consistent, WireSignature, Signature;
    if values != [] {
      EncodedIsConsistent(values[0], limits, check, depth, count);
      AllAreConsistent(values[1..], limits, check, depth, Encode(values[0], limits, check, depth, count).result.count);
    }
  }

  lemma {:induction false} PairIsConsistent(
    p: Pair, key: string, value: string, limits: Limits, check: Validators, depth: nat, count: nat)
    requires EncodePair(p, key, value, limits, check, depth, count).Ok?
    ensures var w := EncodePair(p, key, value, limits, check, depth, count).result.value;
      Consistent(w) && WireSignature(w) == "{" + key + value + "}"
    decreases p
  {
    hide Encode, Signature;
    EncodedIsConsistent(p.key, limits, check, depth, count);
    EncodedIsConsistent(p.value, limits, check, depth, Encode(p.key, limits, check, depth, count).result.count);
  }

  lemma {:induction false} PairsAreConsistent(
    entries: seq<Pair>, key: string, value: string, limits: Limits, check: Validators, depth: nat, count: nat)
    requires EncodePairs(entries, key, value, limits, check, depth, count).Ok?
    ensures var ws := EncodePairs(entries, key, value, limits, check, depth, count).result.value;
      forall i :: 0 <= i < |ws| ==> Consistent(ws[i]) && WireSignature(ws[i]) == "{" + key + value + "}"
    decreases entries
  {
    hide EncodePair, Consistent, WireSignature;
    if entries != [] {
      PairIsConsistent(entries[0], key, value, limits, check, depth, count);
      PairsAreConsistent(entries[1..], key, value, limits, check, depth,
                         EncodePair(entries[0], key, value, limits, check, depth, count).result.count);
    }
  }

  /** What is decoded reports the signature that it had on the wire. */
  lemma {:induction false} DecodedSignature(w: Wire, limits: Limits, depth: nat, count: nat)
    requires Decode(w, limits, depth, count).Ok?
    ensures Signature(Decode(w, limits, depth, count).result.value) == WireSignature(w)
    decreases w
  {
    hide TypeLength;
    match w
    case WArray(element, items) => DecodedArraySignature(element, items, limits, depth, count);
    case WStruct(fields) => DecodedSignatures(fields, limits, depth + 1, count + 1);
    case _ =>
  }

  lemma DecodedArraySignature(element: string, items: seq<Wire>, limits: Limits, depth: nat, count: nat)
    requires Decode(WArray(element, items), limits, depth, count).Ok?
    ensures Signature(Decode(WArray(element, items), limits, depth, count).result.value) == "a" + element
  {
    hide TypeLength, DecodeAll, DecodePairs;
    if |element| >= 2 && element[0] == '{' && element[|element| - 1] == '}' {
      var n := TypeLength(element[1..|element| - 1]);
      if n <= |element| - 2 {
        EntryText(element, n);
      }
    }
  }

  lemma EntryText(element: string, n: nat)
    requires |element| >= 2 && element[0] == '{' && element[|element| - 1] == '}' && n <= |element| - 2
    ensures var inner := element[1..|element| - 1]; "a{" + inner[..n] + inner[n..] + "}" == "a" + element
  {
    var inner := element[1..|element| - 1];
    assert element == "{" + inner + "}";
    assert inner[..n] + inner[n..] == inner;
  }

  lemma {:induction false} DecodedSignatures(ws: seq<Wire>, limits: Limits, depth: nat, count: nat)
    requires DecodeAll(ws, limits, depth, count).Ok?
    ensures Signatures(DecodeAll(ws, limits, depth, count).result.value) == WireSignatures(ws)
    decreases ws
  {
    hide Decode, WireSignature, Signature;
    if ws != [] {
      DecodedSignature(ws[0], limits, depth, count);
      DecodedSignatures(ws[1..], limits, depth, Decode(ws[0], limits, depth, count).result.count);
    }
  }

  /** The codes are those of the D-Bus specification, section "Type system". */
  lemma CodesAreStandard(flag: bool, bits: int, text: string)
    ensures Signature(Boolean(flag)) == "b"
    ensures Signature(Fixed(Byte8, bits)) == "y"
    ensures Signature(Fixed(Int16, bits)) == "n" && Signature(Fixed(Uint16, bits)) == "q"
    ensures Signature(Fixed(Int32, bits)) == "i" && Signature(Fixed(Uint32, bits)) == "u"
    ensures Signature(Fixed(Int64, bits)) == "x" && Signature(Fixed(Uint64, bits)) == "t"
    ensures Signature(Fixed(Double, bits)) == "d"
    ensures Signature(Str(Text, text)) == "s" && Signature(Str(Path, text)) == "o"
    ensures Signature(Str(SignatureText, text)) == "g"
    ensures Signature(Bytes([])) == "ay" && Signature(Dictionary("s", "v", [])) == "a{sv}"
  {
    assert "a{" + "s" + "v" + "}" == "a{sv}";
  }

  // ---------------------------------------------------------------- what is refused for its types

  /** No byte array inside is longer than is allowed. */
  predicate BytesFit(v: Value, maxBytes: nat)
    decreases v
  {
    match v
    case Bytes(bytes) => |bytes| <= maxBytes && |bytes| <= INT_MAX
    case List(_, values) => BytesFitAll(values, maxBytes)
    case Dictionary(_, _, entries) => BytesFitPairs(entries, maxBytes)
    case Record(fields) => BytesFitAll(fields, maxBytes)
    case Variant(inner) => BytesFit(inner, maxBytes)
    case _ => true
  }

  predicate BytesFitAll(values: seq<Value>, maxBytes: nat)
    decreases values
  {
    values == [] || (BytesFit(values[0], maxBytes) && BytesFitAll(values[1..], maxBytes))
  }

  predicate BytesFitPair(p: Pair, maxBytes: nat)
    decreases p
  {
    BytesFit(p.key, maxBytes) && BytesFit(p.value, maxBytes)
  }

  predicate BytesFitPairs(entries: seq<Pair>, maxBytes: nat)
    decreases entries
  {
    entries == [] || (BytesFitPair(entries[0], maxBytes) && BytesFitPairs(entries[1..], maxBytes))
  }

  /** A value within the depth, count and byte limits is never refused for a limit. */
  lemma {:induction false} RefusedForTypesOnly(v: Value, limits: Limits, check: Validators, depth: nat, count: nat)
    requires BytesFit(v, limits.maxBytes) && Shallow(v, limits.maxDepth - depth) && count + Size(v) <= limits.maxValues
    ensures Encode(v, limits, check, depth, count) != TooLarge
    decreases v
  {
    hide ValidSignature, ValidText, ValidEntryTypes, Misread, Signature;
    match v
    case Dictionary(key, value, entries) =>
      PairsRefusedForTypesOnly(entries, key, value, limits, check, depth + 1, count + 1);
    case List(element, values) => AllRefusedForTypesOnly(values, limits, check, depth + 1, count + 1);
    case Record(fields) => AllRefusedForTypesOnly(fields, limits, check, depth + 1, count + 1);
    case Variant(inner) => RefusedForTypesOnly(inner, limits, check, depth + 1, count + 1);
    case _ =>
  }

  lemma {:induction false} AllRefusedForTypesOnly(
    values: seq<Value>, limits: Limits, check: Validators, depth: nat, count: nat)
    requires BytesFitAll(values, limits.maxBytes) && ShallowAll(values, limits.maxDepth - depth)
    requires count + SizeAll(values) <= limits.maxValues
    ensures EncodeAll(values, limits, check, depth, count) != TooLarge
    decreases values
  {
    hide Encode, BytesFit, Shallow, Size;
    if values != [] {
      RefusedForTypesOnly(values[0], limits, check, depth, count);
      EncodeAcceptsIff(values[0], limits, check, depth, count);
      if Encode(values[0], limits, check, depth, count).Ok? {
        AllRefusedForTypesOnly(values[1..], limits, check, depth, count + Size(values[0]));
      }
    }
  }

  lemma {:induction false} PairRefusedForTypesOnly(
    p: Pair, key: string, value: string, limits: Limits, check: Validators, depth: nat, count: nat)
    requires BytesFitPair(p, limits.maxBytes) && ShallowPair(p, limits.maxDepth - depth)
    requires count + SizePair(p) <= limits.maxValues
    ensures EncodePair(p, key, value, limits, check, depth, count) != TooLarge
    decreases p
  {
    hide Encode, BytesFit, Shallow, Size, Signature;
    RefusedForTypesOnly(p.key, limits, check, depth, count);
    EncodeAcceptsIff(p.key, limits, check, depth, count);
    if Encode(p.key, limits, check, depth, count).Ok? {
      RefusedForTypesOnly(p.value, limits, check, depth, count + Size(p.key));
    }
  }

  lemma {:induction false} PairsRefusedForTypesOnly(
    entries: seq<Pair>, key: string, value: string, limits: Limits, check: Validators, depth: nat, count: nat)
    requires BytesFitPairs(entries, limits.maxBytes) && ShallowPairs(entries, limits.maxDepth - depth)
    requires count + SizePairs(entries) <= limits.maxValues
    ensures EncodePairs(entries, key, value, limits, check, depth, count) != TooLarge
    decreases entries
  {
    hide EncodePair, BytesFitPair, ShallowPair, SizePair;
    if entries != [] {
      PairRefusedForTypesOnly(entries[0], key, value, limits, check, depth, count);
      PairAcceptedIff(entries[0], key, value, limits, check, depth, count);
      if EncodePair(entries[0], key, value, limits, check, depth, count).Ok? {
        PairsRefusedForTypesOnly(entries[1..], key, value, limits, check, depth, count + SizePair(entries[0]));
      }
    }
  }

  /** A list whose own signature reads as a byte array or a dictionary is taken for one, and fails as such. */
  lemma MisreadListIsRefused(
    element: string, values: seq<Value>, limits: Limits, check: Validators, depth: nat, count: nat)
    requires element == "y" || (|element| >= 2 && element[0] == '{')
    requires depth <= limits.maxDepth && count < limits.maxValues
    ensures Encode(List(element, values), limits, check, depth, count) == WrongAccess
  {
  }

  /** A single complete type for libdbus, of at most 255 characters and without a NUL. */
  predicate CompleteType(check: Validators, s: string) {
    1 <= |s| <= 255 && (forall i :: 0 <= i < |s| ==> s[i] != '\0') && check.single(s)
  }

  /** Which texts, empty lists, empty dictionaries and byte arrays are accepted, within depth and count. */
  lemma LeavesAcceptedIff(
    text: string, key: string, value: string, bytes: seq<Byte>, limits: Limits, check: Validators, depth: nat, count: nat)
    requires depth <= limits.maxDepth && count < limits.maxValues
    ensures Encode(Str(Text, text), limits, check, depth, count).Ok? <==>
      (forall i :: 0 <= i < |text| ==> text[i] != '\0') && check.text(text)
    ensures Encode(Str(Path, text), limits, check, depth, count).Ok? <==>
      (forall i :: 0 <= i < |text| ==> text[i] != '\0') && check.path(text)
    ensures Encode(Str(SignatureText, text), limits, check, depth, count).Ok? <==>
      (forall i :: 0 <= i < |text| ==> text[i] != '\0') && check.signatures(text)
    ensures Encode(List(value, []), limits, check, depth, count).Ok? <==>
      CompleteType(check, value) && value != "y" && !(|value| >= 2 && value[0] == '{')
    ensures Encode(Dictionary(key, value, []), limits, check, depth, count).Ok? <==>
      && CompleteType(check, key) && CompleteType(check, value)
      && key in ["y", "b", "n", "q", "i", "u", "x", "t", "d", "s", "o", "g"]
    ensures Encode(Bytes(bytes), limits, check, depth, count).Ok? <==>
      |bytes| <= limits.maxBytes && |bytes| <= 0x7fff_ffff
  {
    OneCharacter(key);
  }

  lemma OneCharacter(key: string)
    ensures key in ["y", "b", "n", "q", "i", "u", "x", "t", "d", "s", "o", "g"] <==>
      |key| == 1 && key[0] in BASIC_CODES
  {
    if |key| == 1 {
      assert key == [key[0]];
    }
  }

  // ---------------------------------------------------------------- what is decoded

  /** No entry stands outside a dictionary, and every dictionary signature comes apart. */
  predicate Decodable(w: Wire)
    decreases w
  {
    match w
    case WArray(element, items) =>
      if element == "y" then true
      else if IsEntry(element) then
        && 0 < TypeLength(element[1..|element| - 1]) < |element| - 2
        && forall i :: 0 <= i < |items| ==> items[i].WEntry? && Decodable(items[i].key) && Decodable(items[i].value)
      else forall i :: 0 <= i < |items| ==> Decodable(items[i])
    case WEntry(_, _) => false
    case WStruct(fields) => forall i :: 0 <= i < |fields| ==> Decodable(fields[i])
    case WVariant(_, inner) => Decodable(inner)
    case _ => true
  }

  predicate IsEntry(element: string) {
    |element| >= 2 && element[0] == '{' && element[|element| - 1] == '}'
  }

  /** A decodable message is only ever refused for a limit, and what is refused otherwise is invalid. */
  lemma {:induction false} DecodableFailsByLimitOnly(w: Wire, limits: Limits, depth: nat, count: nat)
    ensures Decodable(w) ==> Decode(w, limits, depth, count).Ok? || Decode(w, limits, depth, count) == TooLarge
    ensures !Decodable(w) ==> Decode(w, limits, depth, count) == Invalid || Decode(w, limits, depth, count) == TooLarge
    decreases w
  {
    hide TypeLength;
    match w
    case WArray(element, items) =>
      if element != "y" {
        if IsEntry(element) {
          EntriesFailByLimitOnly(items, limits, depth + 1, count + 1);
        } else {
          ItemsFailByLimitOnly(items, limits, depth + 1, count + 1);
        }
      }
    case WStruct(fields) => ItemsFailByLimitOnly(fields, limits, depth + 1, count + 1);
    case WVariant(_, inner) => DecodableFailsByLimitOnly(inner, limits, depth + 1, count + 1);
    case _ =>
  }

  lemma {:induction false} ItemsFailByLimitOnly(items: seq<Wire>, limits: Limits, depth: nat, count: nat)
    ensures var r, fine := DecodeAll(items, limits, depth, count), forall i :: 0 <= i < |items| ==> Decodable(items[i]);
      (fine ==> r.Ok? || r == TooLarge) && (!fine ==> r == Invalid || r == TooLarge)
    decreases items
  {
    hide Decode, Decodable;
    if items != [] {
      DecodableFailsByLimitOnly(items[0], limits, depth, count);
      var v := Decode(items[0], limits, depth, count);
      if v.Ok? {
        ItemsFailByLimitOnly(items[1..], limits, depth, v.result.count);
      }
      assert forall i :: 1 <= i < |items| ==> items[i] == items[1..][i - 1];
    }
  }

  lemma {:induction false} EntriesFailByLimitOnly(items: seq<Wire>, limits: Limits, depth: nat, count: nat)
    ensures var r := DecodePairs(items, limits, depth, count);
      var fine := forall i :: 0 <= i < |items| ==>
        items[i].WEntry? && Decodable(items[i].key) && Decodable(items[i].value);
      (fine ==> r.Ok? || r == TooLarge) && (!fine ==> r == Invalid || r == TooLarge)
    decreases items
  {
    hide Decode, Decodable, DecodePair;
    if items != [] {
      EntryFailsByLimitOnly(items[0], limits, depth, count);
      var p := DecodePair(items[0], limits, depth, count);
      if p.Ok? {
        EntriesFailByLimitOnly(items[1..], limits, depth, p.result.count);
      }
      assert forall i :: 1 <= i < |items| ==> items[i] == items[1..][i - 1];
    }
  }

  lemma {:induction false} EntryFailsByLimitOnly(item: Wire, limits: Limits, depth: nat, count: nat)
    ensures var r := DecodePair(item, limits, depth, count);
      var fine := item.WEntry? && Decodable(item.key) && Decodable(item.value);
      (fine ==> r.Ok? || r == TooLarge) && (!fine ==> r == Invalid || r == TooLarge)
    decreases item
  {
    hide Decode, Decodable;
    if item.WEntry? {
      DecodableFailsByLimitOnly(item.key, limits, depth, count);
      var k := Decode(item.key, limits, depth, count);
      if k.Ok? {
        DecodableFailsByLimitOnly(item.value, limits, depth, k.result.count);
      }
    }
  }

  /** Any integer but zero is a true boolean. */
  lemma NonZeroIsTrue(raw: int, limits: Limits, depth: nat, count: nat)
    requires depth <= limits.maxDepth && count < limits.maxValues
    ensures Decode(WBoolean(raw), limits, depth, count).Ok?
    ensures Decode(WBoolean(raw), limits, depth, count).result.value == Boolean(false) <==> raw == 0
  {
  }
}
