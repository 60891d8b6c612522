/** The byte strings that count as text are exactly the UTF-8 encodings of Unicode scalar values
    (chapter 3, definition D92 of the Unicode standard). */
module Utf8Laws {
  import opened ByteStrings
  import opened Utf8

  /** Any code point but a surrogate. */
  predicate IsScalar(c: int) {
    0 <= c < 0xD800 || 0xE000 <= c < 0x11_0000
  }

  /** Six bits in each byte after the first. */
  function EncodeScalar(c: int): Bytes
    requires IsScalar(c)
  {
    if c < 0x80 then [c]
    else if c < 0x800 then [0xC0 + c / 64, 0x80 + c % 64]
    else if c < 0x1_0000 then [0xE0 + c / 4096, 0x80 + c / 64 % 64, 0x80 + c % 64]
    else [0xF0 + c / 262144, 0x80 + c / 4096 % 64, 0x80 + c / 64 % 64, 0x80 + c % 64]
  }

  predicate AllScalars(cs: seq<int>) {
    forall i :: 0 <= i < |cs| ==> IsScalar(cs[i])
  }

  function EncodeScalars(cs: seq<int>): Bytes
    requires AllScalars(cs)
  {
    if cs == [] then [] else EncodeScalar(cs[0]) + EncodeScalars(cs[1..])
  }

  ghost predicate IsText(s: Bytes) {
    exists cs: seq<int> :: AllScalars(cs) && s == EncodeScalars(cs)
  }

  lemma EncodedScalarIsOne(c: int, rest: Bytes)
    requires IsScalar(c)
    ensures SequenceLength(EncodeScalar(c) + rest) == |EncodeScalar(c)|
  {
    var e, s := EncodeScalar(c), EncodeScalar(c) + rest;
    assert s[0] == e[0];
    if |e| > 1 { assert s[1] == e[1]; }
    if |e| > 2 { assert s[2] == e[2]; }
    if |e| > 3 { assert s[3] == e[3]; }
  }

  /** The six bits of a byte after the first. */
  function Bits(b: byte): int {
    b as int - 0x80
  }

  /** The scalar value that a well-formed sequence stands for. */
  function FirstScalar(s: Bytes): int
    requires s != [] && 0 < SequenceLength(s) <= |s|
  {
    var n, b: int := SequenceLength(s), s[0];
    if n == 1 then b
    else if n == 2 then (b - 0xC0) * 64 + Bits(s[1])
    else if n == 3 then ((b - 0xE0) * 64 + Bits(s[1])) * 64 + Bits(s[2])
    else if n == 4 then (((b - 0xF0) * 64 + Bits(s[1])) * 64 + Bits(s[2])) * 64 + Bits(s[3])
    else 0
  }

  lemma Digits64(a: int, x: int, y: int, z: int)
    requires 0 <= a && 0 <= x < 64 && 0 <= y < 64 && 0 <= z < 64
    ensures (a * 64 + x) / 64 == a && (a * 64 + x) % 64 == x
    ensures var c := (a * 64 + x) * 64 + y; c / 4096 == a && c / 64 % 64 == x && c % 64 == y
    ensures var c := ((a * 64 + x) * 64 + y) * 64 + z;
            c / 262144 == a && c / 4096 % 64 == x && c / 64 % 64 == y && c % 64 == z
  {
    var c := ((a * 64 + x) * 64 + y) * 64 + z;
    assert c / 64 == (a * 64 + x) * 64 + y && c / 4096 == a * 64 + x;
  }

  lemma TwoBytes(s: Bytes)
    requires s != [] && SequenceLength(s) == 2
    ensures |s| >= 2 && IsScalar(FirstScalar(s)) && EncodeScalar(FirstScalar(s)) == s[..2]
  {
    Digits64(s[0] - 0xC0, Bits(s[1]), 0, 0);
    assert s[..2] == [s[0], s[1]];
  }

  lemma ThreeBytes(s: Bytes)
    requires s != [] && SequenceLength(s) == 3
    ensures |s| >= 3 && IsScalar(FirstScalar(s)) && EncodeScalar(FirstScalar(s)) == s[..3]
  {
    Digits64(s[0] - 0xE0, Bits(s[1]), Bits(s[2]), 0);
    assert s[..3] == [s[0], s[1], s[2]];
  }

  lemma FourBytes(s: Bytes)
    requires s != [] && SequenceLength(s) == 4
    ensures |s| >= 4 && IsScalar(FirstScalar(s)) && EncodeScalar(FirstScalar(s)) == s[..4]
  {
    Digits64(s[0] - 0xF0, Bits(s[1]), Bits(s[2]), Bits(s[3]));
    assert s[..4] == [s[0], s[1], s[2], s[3]];
  }

  lemma FirstScalarEncodes(s: Bytes)
    requires s != [] && SequenceLength(s) > 0
    ensures SequenceLength(s) <= |s| && IsScalar(FirstScalar(s))
    ensures EncodeScalar(FirstScalar(s)) == s[..SequenceLength(s)]
  {
    match SequenceLength(s)
    case 2 => TwoBytes(s);
    case 3 => ThreeBytes(s);
    case 4 => FourBytes(s);
    case _ => assert s[..1] == [s[0]];
  }

  lemma {:induction false} EncodedIsValid(cs: seq<int>)
    requires AllScalars(cs)
    ensures Valid(EncodeScalars(cs))
  {
    if cs != [] {
      var first, later := EncodeScalar(cs[0]), EncodeScalars(cs[1..]);
      EncodedScalarIsOne(cs[0], later);
      EncodedIsValid(cs[1..]);
      assert (first + later)[|first|..] == later;
    }
  }

  lemma {:induction false} ValidIsEncoded(s: Bytes) returns (cs: seq<int>)
    requires Valid(s)
    ensures AllScalars(cs) && s == EncodeScalars(cs)
  {
    if s == [] {
      cs := [];
    } else {
      var n := SequenceLength(s);
      FirstScalarEncodes(s);
      var later := ValidIsEncoded(s[n..]);
      cs := [FirstScalar(s)] + later;
      assert cs[1..] == later && s == s[..n] + s[n..];
    }
  }

  /** Valid UTF-8 is what encodes some scalar values. */
  lemma ValidIff(s: Bytes)
    ensures Valid(s) <==> IsText(s)
  {
    if Valid(s) { var cs := ValidIsEncoded(s); }
    if IsText(s) {
      var cs: seq<int> :| AllScalars(cs) && s == EncodeScalars(cs);
      EncodedIsValid(cs);
    }
  }
}
