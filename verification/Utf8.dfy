/**
  UTF-8 as RFC 3629 defines it, independently of any validator: section 3 gives the encoding of one
  Unicode scalar value, section 4 the grammar of the octets.  The two are proved to describe the same texts.
*/
module Utf8 {
  type Byte = bv8
  type CodePoint = bv32

  // ---- Section 3: encoding of scalar values ----

  predicate IsScalar(v: CodePoint) {
    v <= 0x10FFFF && !(0xD800 <= v <= 0xDFFF)
  }

  function Tail(v: CodePoint): Byte {
    0x80 | ((v & 0x3F) as Byte)
  }

  function Encode(v: CodePoint): (c: seq<Byte>)
    requires IsScalar(v)
  {
    if v < 0x80 then [v as Byte]
    else if v < 0x800 then [0xC0 | ((v >> 6) as Byte), Tail(v)]
    else if v < 0x1_0000 then [0xE0 | ((v >> 12) as Byte), Tail(v >> 6), Tail(v)]
    else [0xF0 | ((v >> 18) as Byte), Tail(v >> 12), Tail(v >> 6), Tail(v)]
  }

  ghost predicate AllScalars(vs: seq<CodePoint>) {
    forall k :: 0 <= k < |vs| ==> IsScalar(vs[k])
  }

  ghost function EncodeAll(vs: seq<CodePoint>): seq<Byte>
    requires AllScalars(vs)
  {
    if vs == [] then [] else Encode(vs[0]) + EncodeAll(vs[1..])
  }

  // A text is well formed when it is the encoding of some sequence of scalar values.
  ghost predicate IsText(s: seq<Byte>) {
    exists vs :: AllScalars(vs) && EncodeAll(vs) == s
  }

  // ---- Section 4: the grammar ----

  predicate IsTail(b: Byte) { 0x80 <= b <= 0xBF }

  predicate Char1(a: Byte) { a <= 0x7F }

  predicate Char2(a: Byte, b: Byte) {
    0xC2 <= a <= 0xDF && IsTail(b)
  }

  predicate Char3(a: Byte, b: Byte, c: Byte) {
    && IsTail(c)
    && (|| (a == 0xE0 && 0xA0 <= b <= 0xBF)
        || (0xE1 <= a <= 0xEC && IsTail(b))
        || (a == 0xED && 0x80 <= b <= 0x9F)
        || (0xEE <= a <= 0xEF && IsTail(b)))
  }

  predicate Char4(a: Byte, b: Byte, c: Byte, d: Byte) {
    && IsTail(c) && IsTail(d)
    && (|| (a == 0xF0 && 0x90 <= b <= 0xBF)
        || (0xF1 <= a <= 0xF3 && IsTail(b))
        || (a == 0xF4 && 0x80 <= b <= 0x8F))
  }

  // The number of octets of the UTF8-char that s begins with, or 0 when it begins with none.
  function CharLen(s: seq<Byte>): (n: nat)
    ensures n <= 4 && n <= |s|
  {
    if |s| >= 1 && Char1(s[0]) then 1
    else if |s| >= 2 && Char2(s[0], s[1]) then 2
    else if |s| >= 3 && Char3(s[0], s[1], s[2]) then 3
    else if |s| >= 4 && Char4(s[0], s[1], s[2], s[3]) then 4
    else 0
  }

  // UTF8-octets = *( UTF8-char ); the lead octet decides the length, so parsing never needs to backtrack.
  predicate Valid(s: seq<Byte>)
    decreases |s|
  {
    s == [] || (CharLen(s) > 0 && Valid(s[CharLen(s)..]))
  }

  // ---- The grammar derives exactly the encodings ----

  lemma Encode2Char(v: CodePoint)
    requires 0x80 <= v < 0x800
    ensures Char2(0xC0 | ((v >> 6) as Byte), Tail(v))
  {}

  lemma Encode3Char(v: CodePoint)
    requires 0x800 <= v < 0x1_0000 && IsScalar(v)
    ensures Char3(0xE0 | ((v >> 12) as Byte), Tail(v >> 6), Tail(v))
  {}

  lemma Encode4Char(v: CodePoint)
    requires 0x1_0000 <= v <= 0x10FFFF
    ensures Char4(0xF0 | ((v >> 18) as Byte), Tail(v >> 12), Tail(v >> 6), Tail(v))
  {}

  lemma EncodeIsChar(v: CodePoint, rest: seq<Byte>)
    requires IsScalar(v)
    ensures CharLen(Encode(v) + rest) == |Encode(v)|
  {
    if v < 0x80 {
      assert Char1(v as Byte);
    } else if v < 0x800 {
      Encode2Char(v);
    } else if v < 0x1_0000 {
      Encode3Char(v);
    } else {
      Encode4Char(v);
    }
  }

  // Appends the six payload bits of a tail octet.
  function Extend(v: CodePoint, b: Byte): CodePoint {
    (v << 6) | ((b & 0x3F) as CodePoint)
  }

  function Decode2(a: Byte, b: Byte): CodePoint {
    Extend((a & 0x1F) as CodePoint, b)
  }

  function Decode3(a: Byte, b: Byte, c: Byte): CodePoint {
    Extend(Extend((a & 0x0F) as CodePoint, b), c)
  }

  function Decode4(a: Byte, b: Byte, c: Byte, d: Byte): CodePoint {
    Extend(Extend(Extend((a & 0x07) as CodePoint, b), c), d)
  }

  lemma ExtendInverts(v: CodePoint, b: Byte)
    requires v < 0x400_0000 && IsTail(b)
    ensures Tail(Extend(v, b)) == b && Extend(v, b) >> 6 == v
  {}

  lemma Decode2Encodes(a: Byte, b: Byte)
    requires Char2(a, b)
    ensures 0x80 <= Decode2(a, b) < 0x800 && Encode(Decode2(a, b)) == [a, b]
  {}

  lemma Lead3Range(a: Byte, b: Byte)
    requires 0xE0 <= a <= 0xEF && IsTail(b)
    ensures var v := Extend((a & 0x0F) as CodePoint, b);
            v < 0x400 && 0xE0 | ((v >> 6) as Byte) == a
    ensures var v := Extend((a & 0x0F) as CodePoint, b);
            (v >= 0x20 <==> !(a == 0xE0 && b < 0xA0)) && (0x360 <= v <= 0x37F <==> (a == 0xED && b > 0x9F))
  {}

  lemma Lead4Range(a: Byte, b: Byte)
    requires 0xF0 <= a <= 0xF7 && IsTail(b)
    ensures var v := Extend((a & 0x07) as CodePoint, b);
            v < 0x200 && 0xF0 | ((v >> 6) as Byte) == a
    ensures var v := Extend((a & 0x07) as CodePoint, b);
            (v >= 0x10 <==> !(a == 0xF0 && b < 0x90)) && (v < 0x110 <==> (a < 0xF4 || (a == 0xF4 && b <= 0x8F)))
  {}

  lemma ShiftTwice(v: CodePoint)
    ensures (v >> 6) >> 6 == v >> 12 && (v >> 12) >> 6 == v >> 18
  {}

  lemma Decode3Encodes(a: Byte, b: Byte, c: Byte)
    requires Char3(a, b, c)
    ensures 0x800 <= Decode3(a, b, c) < 0x1_0000 && IsScalar(Decode3(a, b, c))
    ensures Encode(Decode3(a, b, c)) == [a, b, c]
  {
    var u := Extend((a & 0x0F) as CodePoint, b);
    Lead3Range(a, b);
    ExtendInverts((a & 0x0F) as CodePoint, b);
    ExtendInverts(u, c);
    ScalarRange3(u, c);
    ShiftTwice(Decode3(a, b, c));
  }

  // The code point of a three-octet character is in range and no surrogate exactly when its upper ten bits say so.
  lemma ScalarRange3(u: CodePoint, c: Byte)
    requires u < 0x400
    ensures Extend(u, c) < 0x1_0000
    ensures Extend(u, c) >= 0x800 <==> u >= 0x20
    ensures 0xD800 <= Extend(u, c) <= 0xDFFF <==> 0x360 <= u <= 0x37F
  {}

  lemma ScalarRange4(u: CodePoint, c: Byte, d: Byte)
    requires u < 0x200
    ensures Extend(Extend(u, c), d) >= 0x1_0000 <==> u >= 0x10
    ensures Extend(Extend(u, c), d) <= 0x10FFFF <==> u < 0x110
    ensures Extend(u, c) < 0x8000
  {}

  lemma Decode4Octets(a: Byte, b: Byte, c: Byte, d: Byte)
    requires 0xF0 <= a <= 0xF7 && IsTail(b) && IsTail(c) && IsTail(d)
    ensures var v := Decode4(a, b, c, d);
            0xF0 | ((v >> 18) as Byte) == a && Tail(v >> 12) == b && Tail(v >> 6) == c && Tail(v) == d
  {
    var u := Extend((a & 0x07) as CodePoint, b);
    Lead4Range(a, b);
    ScalarRange4(u, c, d);
    ExtendInverts((a & 0x07) as CodePoint, b);
    ExtendInverts(u, c);
    ExtendInverts(Extend(u, c), d);
    ShiftTwice(Decode4(a, b, c, d));
  }

  lemma Decode4Encodes(a: Byte, b: Byte, c: Byte, d: Byte)
    requires Char4(a, b, c, d)
    ensures 0x1_0000 <= Decode4(a, b, c, d) <= 0x10FFFF
    ensures Encode(Decode4(a, b, c, d)) == [a, b, c, d]
  {
    Lead4Range(a, b);
    ScalarRange4(Extend((a & 0x07) as CodePoint, b), c, d);
    Decode4Octets(a, b, c, d);
  }

  lemma CharIsEncoding(s: seq<Byte>) returns (v: CodePoint)
    requires CharLen(s) > 0
    ensures IsScalar(v) && Encode(v) == s[..CharLen(s)]
  {
    var n := CharLen(s);
    if n == 1 {
      v := s[0] as CodePoint;
    } else if n == 2 {
      v := Decode2(s[0], s[1]);
      Decode2Encodes(s[0], s[1]);
    } else if n == 3 {
      v := Decode3(s[0], s[1], s[2]);
      Decode3Encodes(s[0], s[1], s[2]);
    } else {
      v := Decode4(s[0], s[1], s[2], s[3]);
      Decode4Encodes(s[0], s[1], s[2], s[3]);
    }
  }

  lemma {:induction false} EncodingsAreValid(vs: seq<CodePoint>)
    requires AllScalars(vs)
    ensures Valid(EncodeAll(vs))
  {
    if vs != [] {
      var rest := EncodeAll(vs[1..]);
      EncodingsAreValid(vs[1..]);
      EncodeIsChar(vs[0], rest);
      assert (Encode(vs[0]) + rest)[|Encode(vs[0])|..] == rest;
    }
  }

  lemma PrependEncoding(v: CodePoint, tail: seq<CodePoint>)
    requires IsScalar(v) && AllScalars(tail)
    ensures AllScalars([v] + tail) && EncodeAll([v] + tail) == Encode(v) + EncodeAll(tail)
  {
    assert ([v] + tail)[1..] == tail;
  }

  lemma {:induction false} ValidIsEncoding(s: seq<Byte>) returns (vs: seq<CodePoint>)
    requires Valid(s)
    ensures AllScalars(vs) && EncodeAll(vs) == s
    decreases |s|
  {
    vs := [];
    if s != [] {
      var v := CharIsEncoding(s);
      var tail := ValidIsEncoding(s[CharLen(s)..]);
      PrependEncoding(v, tail);
      vs := [v] + tail;
    }
  }

  // The grammar of section 4 accepts exactly the encodings of section 3.
  lemma ValidIffText(s: seq<Byte>)
    ensures Valid(s) <==> IsText(s)
  {
    if Valid(s) {
      var vs := ValidIsEncoding(s);
    }
    if IsText(s) {
      var vs :| AllScalars(vs) && EncodeAll(vs) == s;
      EncodingsAreValid(vs);
    }
  }
}
