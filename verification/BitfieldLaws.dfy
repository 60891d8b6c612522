/** The bitfield that one side sends says to the other exactly which pieces it has. */
module BitfieldLaws {
  import opened ByteStrings
  import opened PeerModel

  /** Bit `k` of a bitfield, the first bit of a byte being its highest (BEP 3, "peer messages"). */
  predicate IsSet(bits: Bytes, k: nat)
    requires k / 8 < |bits|
  {
    ((bits[k / 8] as bv8) >> (7 - k % 8)) & 1 == 1
  }

  lemma MaskIsShift(x: bv8, j: nat)
    requires j < 8
    ensures TestMask(x, j) <==> (x >> (7 - j)) & 1 == 1
  {
    assert j == 0 || j == 1 || j == 2 || j == 3 || j == 4 || j == 5 || j == 6 || j == 7;
  }

  lemma BitAtIsSet(bits: Bytes, k: nat)
    requires k / 8 < |bits|
    ensures BitAt(bits, k) <==> IsSet(bits, k)
  {
    MaskIsShift(bits[k / 8] as bv8, k % 8);
  }

  lemma MasksAreDistinct(x: bv8, j: nat, k: nat)
    requires j < 8 && k < 8
    ensures TestMask(OrMask(x, j), k) <==> k == j || TestMask(x, k)
  {
  }

  lemma ByteIsEightBits(x: bv8)
    ensures (x as int) as bv8 == x
  {
  }

  lemma SetBitTests(b: byte, j: nat, k: nat)
    requires j < 8 && k < 8
    ensures TestBit(SetBit(b, j), k) <==> k == j || TestBit(b, k)
  {
    var y := OrMask(b as bv8, j);
    ByteIsEightBits(y);
    assert SetBit(b, j) as bv8 == y;
    MasksAreDistinct(b as bv8, j, k);
  }

  /** What the packing loop leaves: the bits from `i` on are set as told, the others are as they were. */
  lemma {:induction false} PackFromBits(has: seq<bool>, i: nat, bits: Bytes, k: nat)
    requires |has| <= 8 * |bits| && k / 8 < |bits|
    ensures |PackFrom(has, i, bits)| == |bits|
    ensures BitAt(PackFrom(has, i, bits), k) <==> BitAt(bits, k) || (i <= k < |has| && has[k])
    decreases |has| - i
  {
    if i < |has| {
      SetBitTests(bits[i / 8], i % 8, k % 8);
      var next := if has[i] then bits[i / 8 := SetBit(bits[i / 8], i % 8)] else bits;
      PackFromBits(has, i + 1, next, k);
      assert i == 8 * (i / 8) + i % 8 && k == 8 * (k / 8) + k % 8;
    }
  }

  /** Bit `k` of the bitfield sent is whether we have piece `k`, and the spare bits are zero. */
  lemma PackedBit(has: seq<bool>, k: nat)
    ensures |PackBits(has)| == (|has| + 7) / 8
    ensures k / 8 < |PackBits(has)| ==> (IsSet(PackBits(has), k) <==> k < |has| && has[k])
    ensures k / 8 < |PackBits(has)| ==> (BitAt(PackBits(has), k) <==> IsSet(PackBits(has), k))
    ensures k < |has| ==> k / 8 < |PackBits(has)|
  {
    NumBytesIsCeiling(|has|);
    var zeros: Bytes := seq(NumBytes(|has|), _ => 0);
    if |has| > 0 { PackFromBits(has, 0, zeros, 0); }
    if k / 8 < |zeros| {
      PackFromBits(has, 0, zeros, k);
      BitAtIsSet(PackBits(has), k);
    }
  }

  lemma {:induction false} TakenBits(c: Conn, bits: Bytes, i: nat, env: Env)
    requires |c.he.hasPieces| <= 8 * |bits| && |c.he.hasPieces| < TWO_32
    ensures var r := TakeBits(c, bits, i, env.missing);
            && r.he.hasPieces == seq(|c.he.hasPieces|, k requires 0 <= k < |c.he.hasPieces| =>
                                      if k < i then c.he.hasPieces[k] else IsSet(bits, k))
            && r.me == c.me && r.sent == c.sent && r.he.requests == c.he.requests
    decreases |c.he.hasPieces| - i
  {
    if i < |c.he.hasPieces| {
      BitAtIsSet(bits, i);
      var value := BitAt(bits, i);
      var c1 := c.(he := c.he.(hasPieces := c.he.hasPieces[i := value]));
      QueueKeepsHe(c1.(log := c1.log.(announced := c1.log.announced + {i})), i, MissingOf(env.missing, i));
      var c2 := if value then Announce(c1, i, env.missing) else c1;
      TakenBits(c2, bits, i + 1, env);
    }
  }

  /** A bitfield packed here and taken there arrives as the same pieces. */
  lemma BitfieldRoundTrips(has: seq<bool>, c: Conn, env: Env)
    requires |has| == |c.he.hasPieces| < TWO_32
    ensures |has| <= 8 * |PackBits(has)| && TakeBits(c, PackBits(has), 0, env.missing).he.hasPieces == has
  {
    NumBytesIsCeiling(|has|);
    PackedBit(has, 0);
    TakenBits(c, PackBits(has), 0, env);
    forall k | 0 <= k < |has| ensures IsSet(PackBits(has), k) == has[k] { PackedBit(has, k); }
    assert TakeBits(c, PackBits(has), 0, env.missing).he.hasPieces == has;
  }
}
