/** The messages of BEP 3 ("peer protocol", "peer messages") in literal bytes, apart from the code that reads and
    writes them: exactly which payloads are read as which message, and what is written. */
module WireFormat {
  import opened ByteStrings
  import opened Wire

  /** The first byte counts most. */
  function BigEndian(b: Bytes): nat {
    if b == [] then 0 else b[0] * Power256(|b| - 1) + BigEndian(b[1..])
  }

  function Power256(n: nat): nat {
    if n == 0 then 1 else 256 * Power256(n - 1)
  }

  lemma BigEndianOfFour(b: Bytes)
    requires |b| == 4
    ensures BigEndian(b) == b[0] as int * 16777216 + b[1] as int * 65536 + b[2] as int * 256 + b[3]
  {
    assert Power256(0) == 1 && Power256(1) == 256 && Power256(2) == 65536 && Power256(3) == 16777216;
    var b1, b2, b3 := b[1..], b[2..], b[3..];
    assert b1[1..] == b2 && b2[1..] == b3 && b3[1..] == [];
    assert BigEndian(b3) == b[3] * Power256(0) + BigEndian([]);
    assert BigEndian(b2) == b[2] * Power256(1) + BigEndian(b3);
    assert BigEndian(b1) == b[1] * Power256(2) + BigEndian(b2);
  }

  /** Numbers are read and written as four bytes, big-endian. */
  lemma NumbersAreBigEndian(b: Bytes, n: U32)
    ensures |b| >= 4 ==> BytesToU32(b) == BigEndian(b[..4])
    ensures |U32ToBytes(n)| == 4 && BigEndian(U32ToBytes(n)) == n
  {
    if |b| >= 4 {
      var four := b[..4];
      BigEndianOfFour(four);
      assert four[0] == b[0] && four[1] == b[1] && four[2] == b[2] && four[3] == b[3];
    }
    BigEndianOfFour(U32ToBytes(n));
    Base256(n);
  }

  /** Four bytes of `p` from `at` on are the number. */
  predicate NumberAt(p: Bytes, at: nat, n: U32) {
    at + 4 <= |p| && BigEndian(p[at..at + 4]) == n
  }

  /** The payload is the message, as the table of the protocol has it; `Piece` has the id that is given. */
  predicate IsPayload(p: Bytes, m: Message, pieceId: byte) {
    match m
    case KeepAlive => p == []
    case Choke => p == [0]
    case UnChoke => p == [1]
    case Interested => p == [2]
    case NotInterested => p == [3]
    case Have(index) => |p| == 5 && p[0] == 4 && NumberAt(p, 1, index)
    case Bitfield(bits) => p != [] && p[0] == 5 && p[1..] == bits
    case Request(index, offset, length) =>
      |p| == 13 && p[0] == 6 && NumberAt(p, 1, index) && NumberAt(p, 5, offset) && NumberAt(p, 9, length)
    case Piece(index, offset, data) =>
      |p| >= 9 && p[0] == pieceId && NumberAt(p, 1, index) && NumberAt(p, 5, offset) && p[9..] == data
    case Cancel(index, offset, length) =>
      |p| == 13 && p[0] == 8 && NumberAt(p, 1, index) && NumberAt(p, 5, offset) && NumberAt(p, 9, length)
    case Port => p == [9]
  }

  lemma NumberWritten(before: Bytes, n: U32, after: Bytes)
    ensures NumberAt(before + U32ToBytes(n) + after, |before|, n)
  {
    NumbersAreBigEndian([], n);
    assert (before + U32ToBytes(n) + after)[|before|..|before| + 4] == U32ToBytes(n);
  }

  /** What is written for a message is its payload, behind its length. */
  lemma WrittenIsPayload(m: Message, pieceId: byte)
    requires |Payload(m, pieceId)| < TWO_32
    ensures IsPayload(Payload(m, pieceId), m, pieceId)
    ensures var s := Serialize(m, pieceId);
            |s| >= 4 && BigEndian(s[..4]) == |s| - 4 && s[4..] == Payload(m, pieceId)
  {
    var p := Payload(m, pieceId);
    NumbersAreBigEndian([], |p|);
    assert Serialize(m, pieceId)[..4] == U32ToBytes(|p|);
    match m
    case Have(index) =>
      NumberWritten([4], index, []);
      assert p == [4] + U32ToBytes(index) + [];
    case Request(index, offset, length) => ThreeWritten([6], index, offset, length);
    case Cancel(index, offset, length) => ThreeWritten([8], index, offset, length);
    case Piece(index, offset, data) =>
      PieceWritten([pieceId], index, offset, data);
    case _ =>
  }

  lemma PieceWritten(id: Bytes, a: U32, b: U32, data: Bytes)
    requires |id| == 1
    ensures var p := id + U32ToBytes(a) + U32ToBytes(b) + data;
            |p| >= 9 && NumberAt(p, 1, a) && NumberAt(p, 5, b) && p[9..] == data
  {
    var x, y := U32ToBytes(a), U32ToBytes(b);
    NumberWritten(id, a, y + data);
    NumberWritten(id + x, b, data);
    assert id + x + y + data == id + x + (y + data);
  }

  lemma ThreeWritten(id: Bytes, a: U32, b: U32, c: U32)
    requires |id| == 1
    ensures var p := id + U32ToBytes(a) + U32ToBytes(b) + U32ToBytes(c);
            |p| == 13 && NumberAt(p, 1, a) && NumberAt(p, 5, b) && NumberAt(p, 9, c)
  {
    var x, y, z := U32ToBytes(a), U32ToBytes(b), U32ToBytes(c);
    NumberWritten(id, a, y + z);
    NumberWritten(id + x, b, z);
    NumberWritten(id + x + y, c, []);
    assert id + x + y + z == id + x + (y + z) == id + x + y + z + [];
  }

  /** The payload is read as the message: what follows the fields of a message without data is not looked at. */
  predicate IsRead(p: Bytes, m: Message) {
    match m
    case KeepAlive => p == []
    case Choke => p != [] && p[0] == 0
    case UnChoke => p != [] && p[0] == 1
    case Interested => p != [] && p[0] == 2
    case NotInterested => p != [] && p[0] == 3
    case Have(index) => p != [] && p[0] == 4 && NumberAt(p, 1, index)
    case Bitfield(bits) => p != [] && p[0] == 5 && p[1..] == bits
    case Request(index, offset, length) =>
      p != [] && p[0] == 6 && NumberAt(p, 1, index) && NumberAt(p, 5, offset) && NumberAt(p, 9, length)
    case Piece(index, offset, data) =>
      |p| >= 9 && p[0] == 7 && NumberAt(p, 1, index) && NumberAt(p, 5, offset) && p[9..] == data
    case Cancel(index, offset, length) =>
      p != [] && p[0] == 8 && NumberAt(p, 1, index) && NumberAt(p, 5, offset) && NumberAt(p, 9, length)
    case Port => p != [] && p[0] == 9
  }

  /** The number that the reader takes from a place of the body. */
  lemma NumberReadIff(p: Bytes, at: nat, n: U32)
    requires 1 <= at && at + 4 <= |p|
    ensures NumberAt(p, at, n) <==> BytesToU32(p[1..][at - 1..at + 3]) == n
  {
    var b := p[1..][at - 1..at + 3];
    NumbersAreBigEndian(b, n);
    assert b == p[at..at + 4] && b[..4] == b;
  }

  lemma HaveReadIff(p: Bytes, n: U32)
    requires |p| >= 5
    ensures NumberAt(p, 1, n) <==> BytesToU32(p[1..]) == n
  {
    NumberReadIff(p, 1, n);
  }

  /** Exactly these payloads are read as the message; all others make the reader panic. */
  lemma ParsesIff(p: Bytes, m: Message)
    ensures ParsePayload(p) == Some(m) <==> IsRead(p, m)
  {
    if |p| >= 5 {
      match m
      case Have(index) => HaveReadIff(p, index);
      case Request(index, offset, length) => FieldsReadIff(p, index, offset, length);
      case Cancel(index, offset, length) => FieldsReadIff(p, index, offset, length);
      case Piece(index, offset, data) =>
        FieldsReadIff(p, index, offset, 0);
        if |p| >= 9 { assert p[1..][8..] == p[9..]; }
      case _ =>
    }
  }

  lemma FieldsReadIff(p: Bytes, a: U32, b: U32, c: U32)
    requires |p| >= 5
    ensures NumberAt(p, 1, a) <==> BytesToU32(p[1..][0..4]) == a
    ensures |p| >= 9 ==> (NumberAt(p, 5, b) <==> BytesToU32(p[1..][4..8]) == b)
    ensures |p| >= 13 ==> (NumberAt(p, 9, c) <==> BytesToU32(p[1..][8..12]) == c)
  {
    NumberReadIff(p, 1, a);
    if |p| >= 9 { NumberReadIff(p, 5, b); }
    if |p| >= 13 { NumberReadIff(p, 9, c); }
  }
}
