/** UTF-8 as RFC 3629 defines it: the test that a decoder makes, and that it accepts exactly the
    encodings of sequences of Unicode scalar values. */
module Utf8 {
  import opened Machine

  predicate Tail(s: seq<byte>, i: nat, lo: byte, hi: byte) {
    i < |s| && lo <= s[i] <= hi
  }

  /** The number of bytes of the well-formed character that starts `s`, 0 when there is none. */
  function CharWidth(s: seq<byte>): (w: nat)
    ensures w <= |s|
  {
    if s == [] then 0
    else if s[0] < 0x80 then 1
    else if 0xC2 <= s[0] <= 0xDF then (if Tail(s, 1, 0x80, 0xBF) then 2 else 0)
    else if 0xE0 <= s[0] <= 0xEF then
      var lo := if s[0] == 0xE0 then 0xA0 else 0x80;
      var hi := if s[0] == 0xED then 0x9F else 0xBF;
      if Tail(s, 1, lo, hi) && Tail(s, 2, 0x80, 0xBF) then 3 else 0
    else if 0xF0 <= s[0] <= 0xF4 then
      var lo := if s[0] == 0xF0 then 0x90 else 0x80;
      var hi := if s[0] == 0xF4 then 0x8F else 0xBF;
      if Tail(s, 1, lo, hi) && Tail(s, 2, 0x80, 0xBF) && Tail(s, 3, 0x80, 0xBF) then 4 else 0
    else 0
  }

  predicate ValidUtf8(s: seq<byte>) {
    s == [] || (CharWidth(s) > 0 && ValidUtf8(s[CharWidth(s)..]))
  }

  // ---------- what it accepts ----------

  type Scalar = c: int | 0 <= c < 0xD800 || 0xE000 <= c < 0x11_0000

  function EncodeScalar(c: Scalar): seq<byte> {
    if c < 0x80 then [c]
    else if c < 0x800 then [0xC0 + c / 64, 0x80 + c % 64]
    else if c < 0x1_0000 then [0xE0 + c / 4096, 0x80 + c / 64 % 64, 0x80 + c % 64]
    else [0xF0 + c / 262144, 0x80 + c / 4096 % 64, 0x80 + c / 64 % 64, 0x80 + c % 64]
  }

  function EncodeScalars(cs: seq<Scalar>): seq<byte> {
    if cs == [] then [] else EncodeScalar(cs[0]) + EncodeScalars(cs[1..])
  }

  lemma ScalarIsChar(c: Scalar, rest: seq<byte>)
    ensures CharWidth(EncodeScalar(c) + rest) == |EncodeScalar(c)| > 0
  {
  }

  lemma CharIsScalar(s: seq<byte>) returns (c: Scalar)
    requires CharWidth(s) > 0
    ensures s[..CharWidth(s)] == EncodeScalar(c)
  {
    var w := CharWidth(s);
    var b0: int := s[0];
    if w == 1 {
      c := b0;
    } else if w == 2 {
      var b1: int := s[1];
      c := TwoBytes(b0, b1);
    } else if w == 3 {
      var b1: int, b2: int := s[1], s[2];
      c := ThreeBytes(b0, b1, b2);
    } else {
      var b1: int, b2: int, b3: int := s[1], s[2], s[3];
      c := FourBytes(b0, b1, b2, b3);
    }
  }

  lemma TwoBytes(b0: int, b1: int) returns (c: Scalar)
    requires 0xC2 <= b0 <= 0xDF && 0x80 <= b1 <= 0xBF
    ensures EncodeScalar(c) == [b0, b1]
  {
    c := (b0 - 0xC0) * 64 + (b1 - 0x80);
    assert c / 64 == b0 - 0xC0;
  }

  lemma ThreeBytes(b0: int, b1: int, b2: int) returns (c: Scalar)
    requires 0xE0 <= b0 <= 0xEF && 0x80 <= b1 <= 0xBF && 0x80 <= b2 <= 0xBF
    requires (b0 == 0xE0 ==> b1 >= 0xA0) && (b0 == 0xED ==> b1 <= 0x9F)
    ensures EncodeScalar(c) == [b0, b1, b2]
  {
    c := (b0 - 0xE0) * 4096 + (b1 - 0x80) * 64 + (b2 - 0x80);
    assert c / 64 == (b0 - 0xE0) * 64 + (b1 - 0x80);
    assert c / 4096 == b0 - 0xE0;
  }

  lemma FourBytes(b0: int, b1: int, b2: int, b3: int) returns (c: Scalar)
    requires 0xF0 <= b0 <= 0xF4 && 0x80 <= b1 <= 0xBF && 0x80 <= b2 <= 0xBF && 0x80 <= b3 <= 0xBF
    requires (b0 == 0xF0 ==> b1 >= 0x90) && (b0 == 0xF4 ==> b1 <= 0x8F)
    ensures EncodeScalar(c) == [b0, b1, b2, b3]
  {
    c := (b0 - 0xF0) * 262144 + (b1 - 0x80) * 4096 + (b2 - 0x80) * 64 + (b3 - 0x80);
    assert c / 64 == (b0 - 0xF0) * 4096 + (b1 - 0x80) * 64 + (b2 - 0x80);
    assert c / 4096 == (b0 - 0xF0) * 64 + (b1 - 0x80);
    assert c / 262144 == b0 - 0xF0;
  }

  lemma {:induction false} ScalarsAreValid(cs: seq<Scalar>)
    ensures ValidUtf8(EncodeScalars(cs))
  {
    if cs != [] {
      var rest := EncodeScalars(cs[1..]);
      ScalarIsChar(cs[0], rest);
      ScalarsAreValid(cs[1..]);
      assert (EncodeScalar(cs[0]) + rest)[|EncodeScalar(cs[0])|..] == rest;
    }
  }

  lemma {:induction false} ValidAreScalars(s: seq<byte>) returns (cs: seq<Scalar>)
    requires ValidUtf8(s)
    ensures s == EncodeScalars(cs)
  {
    if s == [] {
      cs := [];
    } else {
      var w := CharWidth(s);
      var c := CharIsScalar(s);
      var rest := ValidAreScalars(s[w..]);
      cs := [c] + rest;
      assert s == s[..w] + s[w..];
    }
  }

  /** A byte string is accepted if and only if it encodes a sequence of scalar values. */
  lemma ValidIffScalars(s: seq<byte>)
    ensures ValidUtf8(s) <==> exists cs :: s == EncodeScalars(cs)
  {
    if ValidUtf8(s) {
      var cs := ValidAreScalars(s);
    }
    if cs :| s == EncodeScalars(cs) {
      ScalarsAreValid(cs);
    }
  }
}
