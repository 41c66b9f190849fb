/**
 The UTF-8 check of ANCS attribute text, against the grammar of section 4 of RFC 3629 and
 against the encoding of Unicode scalar values.

 Bytes are integers below 256; the masks and shifts of the check are written as the
 remainders and multiplications they compute on such values.
 */
module Utf8 {
  import opened Common

  type Scalar = c: int | 0 <= c <= 0x10ffff && !(0xd800 <= c <= 0xdfff)

  // ---------------------------------------------------------------- the grammar

  predicate Tail(b: Byte) {
    0x80 <= b <= 0xbf
  }

  /** UTF8-char of section 4 of RFC 3629. */
  predicate IsChar(c: seq<Byte>) {
    || (|c| == 1 && c[0] <= 0x7f)
    || (|c| == 2 && 0xc2 <= c[0] <= 0xdf && Tail(c[1]))
    || (|c| == 3 && c[0] == 0xe0 && 0xa0 <= c[1] <= 0xbf && Tail(c[2]))
    || (|c| == 3 && 0xe1 <= c[0] <= 0xec && Tail(c[1]) && Tail(c[2]))
    || (|c| == 3 && c[0] == 0xed && 0x80 <= c[1] <= 0x9f && Tail(c[2]))
    || (|c| == 3 && 0xee <= c[0] <= 0xef && Tail(c[1]) && Tail(c[2]))
    || (|c| == 4 && c[0] == 0xf0 && 0x90 <= c[1] <= 0xbf && Tail(c[2]) && Tail(c[3]))
    || (|c| == 4 && 0xf1 <= c[0] <= 0xf3 && Tail(c[1]) && Tail(c[2]) && Tail(c[3]))
    || (|c| == 4 && c[0] == 0xf4 && 0x80 <= c[1] <= 0x8f && Tail(c[2]) && Tail(c[3]))
  }

  /** UTF8-octets: some way to cut the bytes into characters. */
  ghost predicate IsUtf8(s: seq<Byte>) {
    s == [] || exists k :: 1 <= k <= |s| && IsChar(s[..k]) && IsUtf8(s[k..])
  }

  /** The first byte fixes the length of a character, so there is one way to cut. */
  lemma OneCut(s: seq<Byte>, k: nat)
    requires 1 <= k <= |s| && IsChar(s[..k])
    ensures IsUtf8(s) <==> IsUtf8(s[k..])
  {
    if IsUtf8(s) {
      var j :| 1 <= j <= |s| && IsChar(s[..j]) && IsUtf8(s[j..]);
      assert s[..j][0] == s[0] && s[..k][0] == s[0];
      assert j == k;
    }
  }

  // ---------------------------------------------------------------- the encoding

  /** Section 3 of RFC 3629. */
  function Encode(c: Scalar): (s: seq<Byte>) {
    var q1, q2, q3 := c / 64, c / 64 / 64, c / 64 / 64 / 64;
    if c < 0x80 then [c]
    else if c < 0x800 then [0xc0 + q1, 0x80 + c % 64]
    else if c < 0x10000 then [0xe0 + q2, 0x80 + q1 % 64, 0x80 + c % 64]
    else [0xf0 + q3, 0x80 + q2 % 64, 0x80 + q1 % 64, 0x80 + c % 64]
  }

  function EncodeAll(cs: seq<Scalar>): (s: seq<Byte>) {
    if cs == [] then [] else Encode(cs[0]) + EncodeAll(cs[1..])
  }

  /** The bits a character carries. */
  function Value(s: seq<Byte>): (c: int)
    requires IsChar(s)
  {
    if |s| == 1 then s[0] as int
    else if |s| == 2 then (s[0] - 0xc0) as int * 64 + (s[1] - 0x80) as int
    else if |s| == 3 then (s[0] - 0xe0) as int * 4096 + (s[1] - 0x80) as int * 64 + (s[2] - 0x80) as int
    else (s[0] - 0xf0) as int * 262144 + (s[1] - 0x80) as int * 4096 + (s[2] - 0x80) as int * 64 + (s[3] - 0x80) as int
  }

  /** Every scalar value is encoded as one character that carries it. */
  lemma EncodeChar(c: Scalar)
    ensures IsChar(Encode(c)) && Value(Encode(c)) == c
  {
    var q1 := c / 64;
    var q2 := q1 / 64;
    var q3 := q2 / 64;
    assert c == q1 * 64 + c % 64 && q1 == q2 * 64 + q1 % 64 && q2 == q3 * 64 + q2 % 64;
  }

  lemma DecodeThree(x: int, y: int, z: int)
    requires 0 <= x < 16 && 0 <= y < 64 && 0 <= z < 64
    requires var c := x * 4096 + y * 64 + z; 0x800 <= c && !(0xd800 <= c <= 0xdfff)
    ensures Encode(x * 4096 + y * 64 + z) == [0xe0 + x, 0x80 + y, 0x80 + z]
  {
    assert x * 4096 + y * 64 + z == (x * 64 + y) * 64 + z;
  }

  lemma DecodeFour(x: int, y: int, z: int, w: int)
    requires 0 <= x < 8 && 0 <= y < 64 && 0 <= z < 64 && 0 <= w < 64
    requires 0x10000 <= x * 262144 + y * 4096 + z * 64 + w <= 0x10ffff
    ensures Encode(x * 262144 + y * 4096 + z * 64 + w) == [0xf0 + x, 0x80 + y, 0x80 + z, 0x80 + w]
  {
    assert x * 262144 + y * 4096 + z * 64 + w == ((x * 64 + y) * 64 + z) * 64 + w;
  }

  /** Every character is the encoding of the value it carries. */
  lemma DecodeChar(s: seq<Byte>) returns (c: Scalar)
    requires IsChar(s)
    ensures Encode(c) == s
  {
    c := Value(s);
    hide Encode;
    if |s| == 1 {
      OneByte(c);
    } else if |s| == 3 {
      DecodeThree(s[0] - 0xe0, s[1] - 0x80, s[2] - 0x80);
    } else if |s| == 4 {
      DecodeFour(s[0] - 0xf0, s[1] - 0x80, s[2] - 0x80, s[3] - 0x80);
    }
  }

  lemma OneByte(c: Scalar)
    requires c < 0x80
    ensures Encode(c) == [c]
  {
  }

  /** Two characters that start the same text are the same character. */
  lemma HeadAgrees(a: seq<Byte>, x: seq<Byte>, b: seq<Byte>, y: seq<Byte>)
    requires IsChar(a) && IsChar(b) && a + x == b + y
    ensures a == b && x == y
  {
    assert (a + x)[0] == a[0] && (b + y)[0] == b[0];
    assert |a| == |b|;
    assert a == (a + x)[..|a|] && b == (b + y)[..|b|];
    assert x == (a + x)[|a|..] && y == (b + y)[|b|..];
  }

  lemma {:induction false} EncodeAllInjective(a: seq<Scalar>, b: seq<Scalar>)
    requires EncodeAll(a) == EncodeAll(b)
    ensures a == b
  {
    if a != [] && b != [] {
      hide Encode, IsChar, Value;
      EncodeChar(a[0]);
      EncodeChar(b[0]);
      HeadAgrees(Encode(a[0]), EncodeAll(a[1..]), Encode(b[0]), EncodeAll(b[1..]));
      EncodeAllInjective(a[1..], b[1..]);
      assert a == [a[0]] + a[1..] && b == [b[0]] + b[1..];
    }
  }

  lemma {:induction false} EncodingIsUtf8(cs: seq<Scalar>)
    ensures IsUtf8(EncodeAll(cs))
  {
    if cs != [] {
      hide Encode;
      EncodeChar(cs[0]);
      EncodingIsUtf8(cs[1..]);
      var s, k := EncodeAll(cs), |Encode(cs[0])|;
      assert s[..k] == Encode(cs[0]) && s[k..] == EncodeAll(cs[1..]);
    }
  }

  lemma {:induction false} Utf8IsEncoding(s: seq<Byte>) returns (cs: seq<Scalar>)
    requires IsUtf8(s)
    ensures EncodeAll(cs) == s
  {
    hide Encode, IsChar;
    if s == [] {
      cs := [];
    } else {
      var k :| 1 <= k <= |s| && IsChar(s[..k]) && IsUtf8(s[k..]);
      var rest := Utf8IsEncoding(s[k..]);
      var c := DecodeChar(s[..k]);
      cs := [c] + rest;
      assert s == s[..k] + s[k..];
    }
  }

  /** A byte string is UTF-8 exactly when it encodes one sequence of scalar values. */
  lemma Utf8IffUniqueEncoding(s: seq<Byte>)
    ensures IsUtf8(s) <==> exists cs: seq<Scalar> :: EncodeAll(cs) == s
    ensures forall a: seq<Scalar>, b: seq<Scalar> :: EncodeAll(a) == s && EncodeAll(b) == s ==> a == b
  {
    if IsUtf8(s) {
      var cs := Utf8IsEncoding(s);
      assert EncodeAll(cs) == s;
    }
    forall cs: seq<Scalar> | EncodeAll(cs) == s
      ensures IsUtf8(s)
    {
      EncodingIsUtf8(cs);
    }
    forall a: seq<Scalar>, b: seq<Scalar> | EncodeAll(a) == s && EncodeAll(b) == s
      ensures a == b
    {
      EncodeAllInjective(a, b);
    }
  }

  // ---------------------------------------------------------------- the check

  predicate IsContinuation(b: Byte) {
    b / 64 == 2
  }

  /** The code point read after `n` continuation bytes. */
  function Bits(bytes: seq<Byte>, index: nat, n: nat, start: nat): (c: nat)
    requires index + n < |bytes|
  {
    if n == 0 then start else Bits(bytes, index, n - 1, start) * 64 + bytes[index + n] % 64
  }

  predicate InRange(n: nat, c: nat) {
    !((n == 1 && c < 0x80) || (n == 2 && c < 0x800) || (n == 3 && c < 0x10000)
      || 0xd800 <= c <= 0xdfff || c > 0x10ffff)
  }

  lemma TwoBytes(a: Byte, b: Byte)
    requires 0xc2 <= a <= 0xdf && Tail(b)
    ensures IsChar([a, b]) && InRange(1, (a - 0xc0) as int * 64 + (b - 0x80) as int)
  {
  }

  lemma ThreeBytes(a: Byte, b: Byte, c: Byte)
    requires 0xe0 <= a <= 0xef && Tail(b) && Tail(c)
    ensures IsChar([a, b, c]) <==> InRange(2, (a - 0xe0) as int * 4096 + (b - 0x80) as int * 64 + (c - 0x80) as int)
  {
  }

  lemma FourBytes(a: Byte, b: Byte, c: Byte, d: Byte)
    requires 0xf0 <= a <= 0xf4 && Tail(b) && Tail(c) && Tail(d)
    ensures IsChar([a, b, c, d]) <==>
      InRange(3, (a - 0xf0) as int * 262144 + (b - 0x80) as int * 4096 + (c - 0x80) as int * 64 + (d - 0x80) as int)
  {
  }

  /** The length and leading bits a first byte announces; length 0 when it cannot start a character. */
  function Announced(first: Byte): (r: (nat, nat)) {
    if 0xc2 <= first <= 0xdf then (1, first % 32)
    else if 0xe0 <= first <= 0xef then (2, first % 16)
    else if 0xf0 <= first <= 0xf4 then (3, first % 8)
    else (0, 0)
  }

  lemma {:induction false} BitsUnrolled(bytes: seq<Byte>, index: nat, n: nat, start: nat)
    requires 1 <= n <= 3 && index + n < |bytes|
    ensures Bits(bytes, index, 1, start) == start * 64 + bytes[index + 1] % 64
    ensures n >= 2 ==> Bits(bytes, index, 2, start) == Bits(bytes, index, 1, start) * 64 + bytes[index + 2] % 64
    ensures n >= 3 ==> Bits(bytes, index, 3, start) == Bits(bytes, index, 2, start) * 64 + bytes[index + 3] % 64
  {
    assert Bits(bytes, index, 0, start) == start;
  }

  /** The continuation bytes of a character are tails, and carry six bits each. */
  lemma Continuations(bytes: seq<Byte>, index: nat, n: nat)
    requires index + n < |bytes|
    ensures forall j :: index < j <= index + n ==> (IsContinuation(bytes[j]) <==> Tail(bytes[j]))
    ensures forall j :: index < j <= index + n && Tail(bytes[j]) ==> bytes[j] % 64 == bytes[j] - 0x80
  {
    forall j | index < j <= index + n
      ensures IsContinuation(bytes[j]) <==> Tail(bytes[j])
      ensures Tail(bytes[j]) ==> bytes[j] % 64 == bytes[j] - 0x80
    {
    }
  }

  lemma CharTails(s: seq<Byte>)
    requires IsChar(s)
    ensures forall j :: 0 < j < |s| ==> Tail(s[j])
  {
  }

  lemma AnnouncedBits(first: Byte)
    ensures Announced(first).0 == 1 ==> 0xc2 <= first <= 0xdf && Announced(first).1 == first - 0xc0
    ensures Announced(first).0 == 2 ==> 0xe0 <= first <= 0xef && Announced(first).1 == first - 0xe0
    ensures Announced(first).0 == 3 ==> 0xf0 <= first <= 0xf4 && Announced(first).1 == first - 0xf0
    ensures Announced(first).0 <= 3
  {
  }

  /** What the range checks of the loop body accept is one character of the grammar. */
  lemma CheckedIsChar(bytes: seq<Byte>, index: nat, n: nat, start: nat)
    requires index + n < |bytes| && n > 0 && (n, start) == Announced(bytes[index])
    ensures IsChar(bytes[index..index + n + 1]) <==>
      (forall j :: index < j <= index + n ==> IsContinuation(bytes[j])) && InRange(n, Bits(bytes, index, n, start))
  {
    hide IsChar, InRange, Bits, Announced, IsContinuation;
    var s := bytes[index..index + n + 1];
    assert forall j :: 0 <= j <= n ==> s[j] == bytes[index + j];
    Continuations(bytes, index, n);
    AnnouncedBits(bytes[index]);
    BitsUnrolled(bytes, index, n, start);
    if IsChar(s) {
      CharTails(s);
      forall j | index < j <= index + n
        ensures Tail(bytes[j])
      {
        assert s[j - index] == bytes[j];
      }
    }
    if forall j :: index < j <= index + n ==> Tail(bytes[j]) {
      if n == 1 {
        TwoBytes(s[0], s[1]);
        assert s == [s[0], s[1]];
      } else if n == 2 {
        ThreeBytes(s[0], s[1], s[2]);
        assert s == [s[0], s[1], s[2]];
      } else {
        FourBytes(s[0], s[1], s[2], s[3]);
        assert s == [s[0], s[1], s[2], s[3]];
      }
    }
  }

  /** A text whose first byte asks for `n` continuations starts with a character of `n + 1` bytes or none. */
  lemma NoOtherChar(s: seq<Byte>, n: nat)
    requires s != [] && s[0] > 0x7f && n == Announced(s[0]).0
    requires n == 0 || n >= |s| || !IsChar(s[..n + 1])
    ensures !IsUtf8(s)
  {
    forall k | 1 <= k <= |s|
      ensures !IsChar(s[..k])
    {
      assert s[..k][0] == s[0];
    }
  }

  method IsValidUtf8(bytes: seq<Byte>) returns (valid: bool)
    ensures valid <==> IsUtf8(bytes)
  {
    hide IsUtf8, IsChar, Bits;
    var index := 0;
    assert bytes[0..] == bytes;
    while index < |bytes|
      invariant index <= |bytes|
      invariant IsUtf8(bytes) <==> IsUtf8(bytes[index..])
    {
      ghost var rest := bytes[index..];
      var first := bytes[index];
      if first <= 0x7f {
        assert rest[..1] == [first] && rest[1..] == bytes[index + 1..];
        OneCut(rest, 1);
        index := index + 1;
        continue;
      }
      var continuationCount: nat := 0;
      var codePoint: nat := 0;
      if 0xc2 <= first <= 0xdf {
        continuationCount, codePoint := 1, first % 32;
      } else if 0xe0 <= first <= 0xef {
        continuationCount, codePoint := 2, first % 16;
      } else if 0xf0 <= first <= 0xf4 {
        continuationCount, codePoint := 3, first % 8;
      } else {
        NoOtherChar(rest, 0);
        return false;
      }
      if continuationCount > |bytes| - index - 1 {
        NoOtherChar(rest, continuationCount);
        return false;
      }
      ghost var start := codePoint;
      CheckedIsChar(bytes, index, continuationCount, start);
      assert rest[..continuationCount + 1] == bytes[index..index + continuationCount + 1];
      NoBitsYet(bytes, index, start);
      for offset := 1 to continuationCount + 1
        invariant codePoint == Bits(bytes, index, offset - 1, start)
        invariant forall j :: index < j < index + offset ==> IsContinuation(bytes[j])
      {
        var continuation := bytes[index + offset];
        if !IsContinuation(continuation) {
          NoOtherChar(rest, continuationCount);
          return false;
        }
        MoreBits(bytes, index, offset, start);
        codePoint := codePoint * 64 + continuation % 64;
      }
      if (continuationCount == 1 && codePoint < 0x80)
         || (continuationCount == 2 && codePoint < 0x800)
         || (continuationCount == 3 && codePoint < 0x10000)
         || 0xd800 <= codePoint <= 0xdfff
         || codePoint > 0x10ffff {
        NoOtherChar(rest, continuationCount);
        return false;
      }
      OneCut(rest, continuationCount + 1);
      assert rest[continuationCount + 1..] == bytes[index + continuationCount + 1..];
      index := index + continuationCount + 1;
    }
    assert bytes[index..] == [];
    EmptyIsUtf8();
    valid := true;
  }

  lemma EmptyIsUtf8()
    ensures IsUtf8([])
  {
  }

  lemma NoBitsYet(bytes: seq<Byte>, index: nat, start: nat)
    requires index < |bytes|
    ensures Bits(bytes, index, 0, start) == start
  {
  }

  lemma MoreBits(bytes: seq<Byte>, index: nat, n: nat, start: nat)
    requires 0 < n && index + n < |bytes|
    ensures Bits(bytes, index, n, start) == Bits(bytes, index, n - 1, start) * 64 + bytes[index + n] % 64
  {
  }
}
