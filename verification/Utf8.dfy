// Well-formed UTF-8, as `String::from_utf8` checks it (sections 3 and 4 of RFC 3629).
module Utf8 {
  import opened Mailbox

  predicate Tail(b: Byte) {
    0x80 <= b <= 0xBF
  }

  /** The length of the well-formed sequence at the start of `s`, or 0. */
  function SeqLen(s: Bytes): (n: nat)
    ensures n <= |s| && n <= 4
  {
    if s == [] then 0
    else if s[0] < 0x80 then 1
    else if 0xC2 <= s[0] <= 0xDF then
      if |s| >= 2 && Tail(s[1]) then 2 else 0
    else if 0xE0 <= s[0] <= 0xEF then
      if |s| >= 3 && Tail(s[1]) && Tail(s[2]) && (s[0] == 0xE0 ==> s[1] >= 0xA0) && (s[0] == 0xED ==> s[1] <= 0x9F)
      then 3 else 0
    else if 0xF0 <= s[0] <= 0xF4 then
      if |s| >= 4 && Tail(s[1]) && Tail(s[2]) && Tail(s[3]) &&
         (s[0] == 0xF0 ==> s[1] >= 0x90) && (s[0] == 0xF4 ==> s[1] <= 0x8F)
      then 4 else 0
    else 0
  }

  predicate WellFormed(s: Bytes)
    decreases |s|
  {
    s == [] || (SeqLen(s) > 0 && WellFormed(s[SeqLen(s)..]))
  }

  // The independent definition: concatenated encodings of Unicode scalar values.

  predicate IsScalar(c: nat) {
    c <= 0x10FFFF && !(0xD800 <= c <= 0xDFFF)
  }

  function Encode(c: nat): Bytes
    requires IsScalar(c)
  {
    if c < 0x80 then [c]
    else if c < 0x800 then [0xC0 + c / 0x40, 0x80 + c % 0x40]
    else if c < 0x10000 then [0xE0 + c / 0x1000, 0x80 + c / 0x40 % 0x40, 0x80 + c % 0x40]
    else [0xF0 + c / 0x40000, 0x80 + c / 0x1000 % 0x40, 0x80 + c / 0x40 % 0x40, 0x80 + c % 0x40]
  }

  predicate Scalars(cs: seq<nat>) {
    forall i :: 0 <= i < |cs| ==> IsScalar(cs[i])
  }

  function EncodeAll(cs: seq<nat>): Bytes
    requires Scalars(cs)
    decreases |cs|
  {
    if cs == [] then [] else Encode(cs[0]) + EncodeAll(cs[1..])
  }

  lemma EncodeLen(c: nat, rest: Bytes)
    requires IsScalar(c)
    ensures SeqLen(Encode(c) + rest) == |Encode(c)| > 0
  {
  }

  lemma Digits(hi: nat, lo: nat)
    requires lo < 0x40
    ensures (hi * 0x40 + lo) / 0x40 == hi && (hi * 0x40 + lo) % 0x40 == lo
  {
  }

  lemma Decode2(s: Bytes) returns (c: nat)
    requires SeqLen(s) == 2
    ensures IsScalar(c) && Encode(c) == s[..2]
  {
    var a: nat, b: nat := s[0] as int - 0xC0, s[1] as int - 0x80;
    Digits(a, b);
    c := a * 0x40 + b;
  }

  lemma Decode3(s: Bytes) returns (c: nat)
    requires SeqLen(s) == 3
    ensures IsScalar(c) && Encode(c) == s[..3]
  {
    var a: nat, b: nat, d: nat := s[0] as int - 0xE0, s[1] as int - 0x80, s[2] as int - 0x80;
    var ab := a * 0x40 + b;
    Digits(a, b);
    Digits(ab, d);
    c := ab * 0x40 + d;
    assert c / 0x1000 == c / 0x40 / 0x40;
  }

  lemma Decode4(s: Bytes) returns (c: nat)
    requires SeqLen(s) == 4
    ensures IsScalar(c) && Encode(c) == s[..4]
  {
    var a: nat, b: nat, d: nat, e: nat :=
      s[0] as int - 0xF0, s[1] as int - 0x80, s[2] as int - 0x80, s[3] as int - 0x80;
    var ab := a * 0x40 + b;
    var abd := ab * 0x40 + d;
    Digits(a, b);
    Digits(ab, d);
    Digits(abd, e);
    c := abd * 0x40 + e;
    assert c / 0x1000 == c / 0x40 / 0x40 && c / 0x40000 == c / 0x1000 / 0x40;
  }

  /** The scalar value that a well-formed sequence encodes. */
  lemma Decode(s: Bytes) returns (c: nat)
    requires SeqLen(s) > 0
    ensures IsScalar(c) && Encode(c) == s[..SeqLen(s)]
  {
    match SeqLen(s)
    case 1 => c := s[0];
    case 2 => c := Decode2(s);
    case 3 => c := Decode3(s);
    case _ => c := Decode4(s);
  }

  lemma {:induction false} EncodingsAreWellFormed(cs: seq<nat>)
    requires Scalars(cs)
    ensures WellFormed(EncodeAll(cs))
    decreases |cs|
  {
    if cs != [] {
      EncodingsAreWellFormed(cs[1..]);
      EncodeLen(cs[0], EncodeAll(cs[1..]));
      var s := EncodeAll(cs);
      assert s[SeqLen(s)..] == EncodeAll(cs[1..]);
    }
  }

  lemma {:induction false} WellFormedIsEncoding(s: Bytes) returns (cs: seq<nat>)
    requires WellFormed(s)
    ensures Scalars(cs) && EncodeAll(cs) == s
    decreases |s|
  {
    if s == [] {
      cs := [];
    } else {
      var n := SeqLen(s);
      var c := Decode(s);
      var rest := WellFormedIsEncoding(s[n..]);
      cs := [c] + rest;
      assert Scalars(cs);
      assert EncodeAll(cs) == Encode(c) + EncodeAll(rest) by {
        assert cs[1..] == rest;
      }
      assert s == s[..n] + s[n..];
    }
  }

  /** The byte check accepts exactly the encodings of sequences of Unicode scalar values. */
  lemma WellFormedExactly(s: Bytes)
    ensures WellFormed(s) <==> exists cs :: Scalars(cs) && EncodeAll(cs) == s
  {
    if WellFormed(s) {
      var cs := WellFormedIsEncoding(s);
    }
    forall cs | Scalars(cs) && EncodeAll(cs) == s
      ensures WellFormed(s)
    {
      EncodingsAreWellFormed(cs);
    }
  }

  /** The first and third examples of section 7 of RFC 3629: "A", not identical to, capital
      alpha, "."; and a stump of tree from the supplementary planes. */
  lemma Examples()
    ensures EncodeAll([0x41, 0x2262, 0x391, 0x2E]) == [0x41, 0xE2, 0x89, 0xA2, 0xCE, 0x91, 0x2E]
    ensures Encode(0x233B4) == [0xF0, 0xA3, 0x8E, 0xB4]
  {
    var cs := [0x41, 0x2262, 0x391, 0x2E];
    assert cs[1..] == [0x2262, 0x391, 0x2E] && cs[1..][1..] == [0x391, 0x2E];
    assert [0x391, 0x2E][1..] == [0x2E] && [0x2E][1..] == [];
    assert EncodeAll([0x2E]) == Encode(0x2E) + EncodeAll([]);
    assert EncodeAll([0x391, 0x2E]) == Encode(0x391) + EncodeAll([0x2E]);
    assert EncodeAll([0x2262, 0x391, 0x2E]) == Encode(0x2262) + EncodeAll([0x391, 0x2E]);
  }
}
