/**
 D-Bus type signatures: where a complete type ends in a text that goes on.
 */
module DbusSignature {
  /** Complete types; a dictionary entry occurs as the element of an array. */
  datatype Type =
    | Single(code: char)
    | Array(element: Type)
    | Struct(fields: seq<Type>)
    | Entry(key: Type, value: Type)

  predicate WellFormed(t: Type) {
    match t
    case Single(code) => code !in "a(){}"
    case Array(element) => WellFormed(element)
    case Struct(fields) => forall i :: 0 <= i < |fields| ==> WellFormed(fields[i])
    case Entry(key, value) => WellFormed(key) && WellFormed(value)
  }

  function Sig(t: Type): (s: string)
    ensures s != ""
  {
    match t
    case Single(code) => [code]
    case Array(element) => "a" + Sig(element)
    case Struct(fields) => "(" + SigAll(fields) + ")"
    case Entry(key, value) => "{" + Sig(key) + Sig(value) + "}"
  }

  function SigAll(ts: seq<Type>): (s: string) {
    if ts == [] then "" else Sig(ts[0]) + SigAll(ts[1..])
  }

  /** Length of the type at the start of `s`; 0 when a bracket is not closed. */
  function TypeLength(s: string): (n: nat)
    ensures n <= |s|
    decreases |s|, 0
  {
    if s == "" then 0
    else if s[0] == 'a' then 1 + TypeLength(s[1..])
    else if s[0] == '(' || s[0] == '{' then BracketEnd(s, 1, if s[0] == '(' then ')' else '}')
    else 1
  }

  /** The index after the closing bracket, when the types before `index` have been passed. */
  function BracketEnd(s: string, index: nat, close: char): (n: nat)
    requires index <= |s|
    ensures n <= |s|
    decreases |s| - index, 1
  {
    if index == |s| then 0
    else if s[index] == close then index + 1
    else
      var length := TypeLength(s[index..]);
      if length == 0 then 0 else BracketEnd(s, index + length, close)
  }

  method SignatureTypeLength(signature: string) returns (n: nat)
    ensures n == TypeLength(signature)
    decreases |signature|
  {
    if signature == "" {
      return 0;
    }
    var index := 0;
    if signature[index] == 'a' {
      var rest := SignatureTypeLength(signature[1..]);
      return 1 + rest;
    }
    if signature[index] == '(' || signature[index] == '{' {
      var close := if signature[index] == '(' then ')' else '}';
      index := index + 1;
      while index < |signature| && signature[index] != close
        invariant 1 <= index <= |signature|
        invariant TypeLength(signature) == BracketEnd(signature, index, close)
        decreases |signature| - index
      {
        var length := SignatureTypeLength(signature[index..]);
        if length == 0 {
          return 0;
        }
        index := index + length;
      }
      return if index < |signature| then index + 1 else 0;
    }
    return 1;
  }

  // ---------------------------------------------------------------- the length of a whole type

  lemma FirstChar(t: Type)
    requires WellFormed(t)
    ensures Sig(t)[0] != ')' && Sig(t)[0] != '}'
  {
  }

  /** One turn of the bracket loop over a type whose length is found. */
  lemma BracketTurn(s: string, index: nat, close: char, t: Type, tail: string)
    requires WellFormed(t) && (close == ')' || close == '}')
    requires index <= |s| && s[index..] == Sig(t) + tail && TypeLength(Sig(t) + tail) == |Sig(t)|
    ensures index + |Sig(t)| <= |s| && s[index + |Sig(t)|..] == tail
    ensures BracketEnd(s, index, close) == BracketEnd(s, index + |Sig(t)|, close)
  {
    hide Sig, TypeLength, WellFormed;
    FirstChar(t);
    assert s[index] == s[index..][0] == Sig(t)[0];
    assert s[index..][|Sig(t)|..] == s[index + |Sig(t)|..];
  }

  lemma BracketCloses(s: string, index: nat, close: char, rest: string)
    requires index <= |s| && s[index..] == [close] + rest
    ensures BracketEnd(s, index, close) == index + 1
  {
    assert s[index] == s[index..][0];
  }

  /** The type at the start of a text is found whatever follows it. */
  lemma {:induction false} LengthOfSig(t: Type, rest: string)
    requires WellFormed(t)
    ensures TypeLength(Sig(t) + rest) == |Sig(t)|
    decreases t, 1
  {
    hide BracketEnd;
    var s := Sig(t) + rest;
    match t
    case Single(code) =>
    case Array(element) =>
      assert s[1..] == Sig(element) + rest;
      LengthOfSig(element, rest);
    case Struct(fields) => LengthOfStruct(t, rest);
    case Entry(key, value) => LengthOfEntry(t, rest);
  }

  lemma {:induction false} LengthOfStruct(t: Type, rest: string)
    requires WellFormed(t) && t.Struct?
    ensures TypeLength(Sig(t) + rest) == |Sig(t)|
    decreases t, 0
  {
    hide BracketEnd, SigAll;
    var s := Sig(t) + rest;
    assert s[1..] == SigAll(t.fields) + ([')'] + rest);
    EndOfAll(t.fields, s, 1, ')', rest);
  }

  lemma {:induction false} LengthOfEntry(t: Type, rest: string)
    requires WellFormed(t) && t.Entry?
    ensures TypeLength(Sig(t) + rest) == |Sig(t)|
    decreases t, 0
  {
    var s, k, v := Sig(t) + rest, Sig(t.key), Sig(t.value);
    assert s[1..] == k + (v + (['}'] + rest));
    LengthOfSig(t.key, v + (['}'] + rest));
    LengthOfSig(t.value, ['}'] + rest);
    assert TypeLength(s) == BracketEnd(s, 1, '}');
    hide BracketEnd, TypeLength, Sig;
    BracketTurn(s, 1, '}', t.key, v + (['}'] + rest));
    BracketTurn(s, 1 + |k|, '}', t.value, ['}'] + rest);
    BracketCloses(s, 1 + |k| + |v|, '}', rest);
  }

  lemma {:induction false} EndOfAll(ts: seq<Type>, s: string, index: nat, close: char, rest: string)
    requires forall i :: 0 <= i < |ts| ==> WellFormed(ts[i])
    requires (close == ')' || close == '}') && index <= |s| && s[index..] == SigAll(ts) + ([close] + rest)
    ensures BracketEnd(s, index, close) == index + |SigAll(ts)| + 1
    decreases ts, 0
  {
    hide BracketEnd, TypeLength, Sig, WellFormed;
    if ts == [] {
      assert s[index..] == [close] + rest;
      BracketCloses(s, index, close, rest);
    } else {
      var tail := SigAll(ts[1..]) + ([close] + rest);
      assert s[index..] == Sig(ts[0]) + tail;
      LengthOfSig(ts[0], tail);
      BracketTurn(s, index, close, ts[0], tail);
      EndOfAll(ts[1..], s, index + |Sig(ts[0])|, close, rest);
    }
  }

  lemma {:induction false} NoEndOfAll(ts: seq<Type>, s: string, index: nat, close: char)
    requires forall i :: 0 <= i < |ts| ==> WellFormed(ts[i])
    requires (close == ')' || close == '}') && index <= |s| && s[index..] == SigAll(ts)
    ensures BracketEnd(s, index, close) == 0
    decreases ts
  {
    hide TypeLength, Sig, WellFormed;
    if ts != [] {
      assert s[index..] == Sig(ts[0]) + SigAll(ts[1..]);
      LengthOfSig(ts[0], SigAll(ts[1..]));
      BracketTurn(s, index, close, ts[0], SigAll(ts[1..]));
      NoEndOfAll(ts[1..], s, index + |Sig(ts[0])|, close);
    }
  }

  /** No length is found for a bracket that is not closed; an array mark counts for one even so. */
  lemma UnclosedHasNoLength(ts: seq<Type>)
    requires forall i :: 0 <= i < |ts| ==> WellFormed(ts[i])
    ensures TypeLength("(" + SigAll(ts)) == 0 && TypeLength("{" + SigAll(ts)) == 0
    ensures TypeLength("a(" + SigAll(ts)) == TypeLength("a") == 1
  {
    hide BracketEnd, SigAll, TypeLength, Sig, WellFormed;
    var s := SigAll(ts);
    FirstDecides(s);
    FirstDecides("(" + s);
    FirstDecides("");
    assert ("(" + s)[1..] == s && ("{" + s)[1..] == s;
    NoEndOfAll(ts, "(" + s, 1, ')');
    NoEndOfAll(ts, "{" + s, 1, '}');
    assert "a(" + s == "a" + ("(" + s) && "a" + "" == "a";
  }

  lemma FirstDecides(s: string)
    ensures TypeLength("(" + s) == BracketEnd("(" + s, 1, ')') && TypeLength("{" + s) == BracketEnd("{" + s, 1, '}')
    ensures TypeLength("a" + s) == 1 + TypeLength(s) && TypeLength("") == 0
  {
    hide BracketEnd;
    assert ("a" + s)[1..] == s;
  }

  /** A key signature and a value signature written one after the other come apart again. */
  lemma KeyAndValueComeApart(key: Type, value: Type)
    requires WellFormed(key) && WellFormed(value)
    ensures var inner := Sig(key) + Sig(value);
      var length := TypeLength(inner);
      0 < length < |inner| && inner[..length] == Sig(key) && inner[length..] == Sig(value)
  {
    LengthOfSig(key, Sig(value));
  }

  /** No signature is the beginning of another one, so a text is at most one type followed by something. */
  lemma {:induction false} SigsDoNotOverlap(t: Type, u: Type, x: string, y: string)
    requires WellFormed(t) && WellFormed(u) && Sig(t) + x == Sig(u) + y
    ensures t == u && x == y
    decreases t, 1
  {
    LengthOfSig(t, x);
    LengthOfSig(u, y);
    SplitEqual(Sig(t), x, Sig(u), y);
    SigIsInjective(t, u);
  }

  lemma SplitEqual(a: string, x: string, b: string, y: string)
    requires a + x == b + y && |a| == |b|
    ensures a == b && x == y
  {
    assert a == (a + x)[..|a|] && x == (a + x)[|a|..];
    assert b == (b + y)[..|a|] && y == (b + y)[|a|..];
  }

  lemma {:induction false} SigIsInjective(t: Type, u: Type)
    requires WellFormed(t) && WellFormed(u) && Sig(t) == Sig(u)
    ensures t == u
    decreases t, 0
  {
    SameShape(t, u);
    Inside(t);
    Inside(u);
    hide Sig;
    match t
    case Single(code) =>
    case Array(element) => SigIsInjective(element, u.element);
    case Struct(fields) => SigAllIsInjective(fields, u.fields);
    case Entry(key, value) =>
      SigsDoNotOverlap(key, u.key, Sig(value) + "}", Sig(u.value) + "}");
      SigsDoNotOverlap(value, u.value, "}", "}");
  }

  /** The text between the brackets, or behind the array mark. */
  lemma Inside(t: Type)
    ensures t.Array? ==> Sig(t)[1..] == Sig(t.element)
    ensures t.Struct? ==> Sig(t)[1..|Sig(t)| - 1] == SigAll(t.fields)
    ensures t.Entry? ==> Sig(t)[1..] == Sig(t.key) + (Sig(t.value) + "}")
  {
  }

  lemma SameShape(t: Type, u: Type)
    requires WellFormed(t) && WellFormed(u) && Sig(t)[0] == Sig(u)[0]
    ensures t.Single? == u.Single? && t.Array? == u.Array? && t.Struct? == u.Struct? && t.Entry? == u.Entry?
    ensures t.Single? ==> t == u
    ensures t.Entry? ==> WellFormed(t.key) && WellFormed(t.value) && WellFormed(u.key) && WellFormed(u.value)
  {
  }

  lemma {:induction false} SigAllIsInjective(ts: seq<Type>, us: seq<Type>)
    requires forall i :: 0 <= i < |ts| ==> WellFormed(ts[i])
    requires forall i :: 0 <= i < |us| ==> WellFormed(us[i])
    requires SigAll(ts) == SigAll(us)
    ensures ts == us
    decreases ts, 0
  {
    if ts != [] && us != [] {
      SigsDoNotOverlap(ts[0], us[0], SigAll(ts[1..]), SigAll(us[1..]));
      SigAllIsInjective(ts[1..], us[1..]);
      assert ts == [ts[0]] + ts[1..] && us == [us[0]] + us[1..];
    }
  }
}
