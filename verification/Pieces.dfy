/** How download.rs cuts a torrent into pieces and blocks. */
module Pieces {
  import opened ByteStrings
  import opened Sha1Hash

  const BLOCK_SIZE: nat := 16384

  datatype Block = Block(index: nat, length: nat, done: bool)
  datatype Piece = Piece(length: nat, offset: nat, hash: Sha1, blocks: seq<Block>, done: bool) {
    predicate HasAllBlocks() {
      forall b :: 0 <= b < |blocks| ==> blocks[b].done
    }
  }

  /** `(length as f64 / BLOCK_SIZE as f64).ceil()`: exact, as `length` fits 32 bits and the divisor is a
      power of two. */
  function NumBlocks(length: nat): int {
    -(-(length as real / BLOCK_SIZE as real)).Floor
  }

  lemma NumBlocksIsCeiling(length: nat)
    ensures NumBlocks(length) == (length + BLOCK_SIZE - 1) / BLOCK_SIZE
    ensures BLOCK_SIZE * (NumBlocks(length) - 1) < length || length == 0
    ensures length <= BLOCK_SIZE * NumBlocks(length)
  {
    var n := NumBlocks(length);
    var q := length as real / BLOCK_SIZE as real;
    assert q * 16384.0 == length as real;
    assert (-q).Floor as real <= -q < (-q).Floor as real + 1.0;
    assert (n as real - 1.0) * 16384.0 < length as real <= n as real * 16384.0;
  }

  function BlockAt(length: nat, i: nat): Block
    requires i < NumBlocks(length)
  {
    NumBlocksIsCeiling(length);
    var len := if i < NumBlocks(length) - 1 then BLOCK_SIZE else length - BLOCK_SIZE * (NumBlocks(length) - 1);
    Block(i, len, false)
  }

  function NewPiece(length: nat, offset: nat, hash: Sha1): Piece {
    NumBlocksIsCeiling(length);
    Piece(length, offset, hash,
          seq(NumBlocks(length), i requires 0 <= i < NumBlocks(length) => BlockAt(length, i)), false)
  }

  method BuildPiece(length: nat, offset: nat, hash: Sha1) returns (p: Piece)
    ensures p == NewPiece(length, offset, hash)
  {
    NumBlocksIsCeiling(length);
    var numBlocks := NumBlocks(length);
    var blocks: seq<Block> := [];
    for i := 0 to numBlocks
      invariant |blocks| == i && forall k :: 0 <= k < i ==> blocks[k] == BlockAt(length, k)
    {
      var len := if i < numBlocks - 1 then BLOCK_SIZE else length - BLOCK_SIZE * (numBlocks - 1);
      blocks := blocks + [Block(i, len, false)];
    }
    p := Piece(length, offset, hash, blocks, false);
    assert blocks == NewPiece(length, offset, hash).blocks;
  }

  /** Byte `x` of a piece lies in block `b` of it. */
  ghost predicate InBlock(blocks: seq<Block>, b: int, x: int) {
    0 <= b < |blocks| && BLOCK_SIZE * b <= x < BLOCK_SIZE * b + blocks[b].length
  }

  /** Each byte of a piece lies in exactly one block; no block is empty or longer than 16 KiB. */
  lemma BlocksPartitionPiece(length: nat, offset: nat, hash: Sha1, x: int, b: int)
    ensures var blocks := NewPiece(length, offset, hash).blocks;
            && |blocks| == (length + 16383) / 16384
            && (forall k :: 0 <= k < |blocks| ==> blocks[k].index == k && 1 <= blocks[k].length <= 16384)
            && (InBlock(blocks, b, x) <==> 0 <= x < length && b == x / 16384)
  {
    NumBlocksIsCeiling(length);
  }

  // ---- create_pieces ----

  /** The length of piece `i` before it is cast to 32 bits. */
  function PieceLength(total: nat, pieceLength: nat, n: nat, i: nat): int {
    if i < n - 1 then pieceLength else total - i * pieceLength
  }

  /** The two assertions of `create_pieces`, about the last piece. */
  predicate CountFits(total: nat, pieceLength: nat, n: nat) {
    n > 0 ==> total > (n - 1) * pieceLength && pieceLength >= total - (n - 1) * pieceLength
  }

  function PieceAt(total: nat, pieceLength: nat, shas: seq<Sha1>, i: nat): Piece
    requires CountFits(total, pieceLength, |shas|) && i < |shas|
  {
    NewPiece(PieceLength(total, pieceLength, |shas|, i) % TWO_32, i * pieceLength, shas[i])
  }

  function PiecesOf(total: nat, pieceLength: nat, shas: seq<Sha1>): seq<Piece>
    requires CountFits(total, pieceLength, |shas|)
  {
    seq(|shas|, i requires 0 <= i < |shas| => PieceAt(total, pieceLength, shas, i))
  }

  /** `create_pieces`; `None` is a failed assertion. */
  method CreatePieces(total: nat, pieceLength: nat, shas: seq<Sha1>) returns (r: Option<seq<Piece>>)
    ensures r.Some? <==> CountFits(total, pieceLength, |shas|)
    ensures r.Some? ==> r.value == PiecesOf(total, pieceLength, shas)
  {
    var pieces: seq<Piece> := [];
    var numPieces := |shas|;
    for i := 0 to numPieces
      invariant |pieces| == i && (i == numPieces ==> CountFits(total, pieceLength, numPieces))
      invariant CountFits(total, pieceLength, numPieces) ==>
                  forall k :: 0 <= k < i ==> pieces[k] == PieceAt(total, pieceLength, shas, k)
    {
      var offset := i * pieceLength;
      var length: int;
      if i < numPieces - 1 {
        length := pieceLength;
      } else {
        if !(total > offset) { return None; }
        if !(pieceLength >= total - offset) { return None; }
        length := total - offset;
      }
      var piece := BuildPiece(length % TWO_32, offset, shas[i]);
      pieces := pieces + [piece];
    }
    assert pieces == PiecesOf(total, pieceLength, shas);
    return Some(pieces);
  }

  /** The assertions hold exactly when the number of pieces is that of the torrent's length. */
  lemma CountFitsIff(total: nat, pieceLength: nat, n: nat)
    requires n > 0 && total > 0 && pieceLength > 0
    ensures CountFits(total, pieceLength, n) <==> n == (total + pieceLength - 1) / pieceLength
  {
    var q := (total + pieceLength - 1) / pieceLength;
    assert q * pieceLength <= total + pieceLength - 1 < q * pieceLength + pieceLength;
    if n < q { Mul(n, q - 1, pieceLength); }
    if n > q { Mul(q, n - 1, pieceLength); }
    assert (n - 1) * pieceLength == n * pieceLength - pieceLength;
  }

  lemma Mul(a: int, b: int, c: nat)
    requires a <= b
    ensures a * c <= b * c
  {
  }

  /** `as u32` keeps every length. */
  predicate LengthsFitU32(total: nat, pieceLength: nat, n: nat) {
    forall i :: 0 <= i < n ==> PieceLength(total, pieceLength, n, i) < TWO_32
  }

  /** Byte `g` of the torrent lies in block `b` of piece `i`. */
  ghost predicate HoldsByte(pieces: seq<Piece>, i: int, b: int, g: int) {
    0 <= i < |pieces| && InBlock(pieces[i].blocks, b, g - pieces[i].offset)
  }

  lemma OffsetOfByte(g: nat, pieceLength: nat, i: int)
    requires pieceLength > 0
    ensures i * pieceLength <= g < i * pieceLength + pieceLength <==> i == g / pieceLength
  {
    var q := g / pieceLength;
    assert q * pieceLength <= g < q * pieceLength + pieceLength;
    if i < q { Mul(i + 1, q, pieceLength); }
    if i > q { Mul(q + 1, i, pieceLength); }
  }

  /** Before any cast the pieces follow one another and end at the total. */
  lemma PieceHoldsByte(total: nat, pieceLength: nat, n: nat, g: int, i: nat)
    requires CountFits(total, pieceLength, n) && i < n
    ensures pieceLength > 0 && 0 < PieceLength(total, pieceLength, n, i) <= pieceLength
    ensures i * pieceLength + PieceLength(total, pieceLength, n, i) <= total
    ensures i * pieceLength <= g < i * pieceLength + PieceLength(total, pieceLength, n, i)
       <==> 0 <= g < total && i == g / pieceLength
  {
    Mul(0, i, pieceLength);
    assert (n - 1) * pieceLength + pieceLength == n * pieceLength;
    if i < n - 1 {
      Mul(i + 1, n - 1, pieceLength);
      assert (i + 1) * pieceLength == i * pieceLength + pieceLength;
    }
    if g >= 0 { OffsetOfByte(g, pieceLength, i); }
  }

  lemma ByteIsInSomePiece(total: nat, pieceLength: nat, n: nat, g: nat)
    requires n > 0 && CountFits(total, pieceLength, n) && g < total
    ensures pieceLength > 0 && 0 <= g / pieceLength < n
  {
    assert (n - 1) * pieceLength + pieceLength == n * pieceLength;
    OffsetOfByte(g, pieceLength, g / pieceLength);
    if g / pieceLength >= n { Mul(n, g / pieceLength, pieceLength); }
  }

  lemma PieceAtHoldsByte(total: nat, pieceLength: nat, shas: seq<Sha1>, g: int, i: nat, b: int)
    requires CountFits(total, pieceLength, |shas|) && i < |shas|
    ensures InBlock(PieceAt(total, pieceLength, shas, i).blocks, b, g - i * pieceLength)
       <==> && i * pieceLength <= g < i * pieceLength + PieceLength(total, pieceLength, |shas|, i) % TWO_32
            && b == (g - i * pieceLength) / BLOCK_SIZE
  {
    var length := PieceLength(total, pieceLength, |shas|, i) % TWO_32;
    BlocksPartitionPiece(length, i * pieceLength, shas[i], g - i * pieceLength, b);
  }

  /** Where the lengths fit, each byte lies in exactly one block of exactly one piece. */
  lemma PiecesPartitionTorrent(total: nat, pieceLength: nat, shas: seq<Sha1>, g: int, i: int, b: int)
    requires shas != [] && CountFits(total, pieceLength, |shas|) && LengthsFitU32(total, pieceLength, |shas|)
    ensures pieceLength > 0
    ensures HoldsByte(PiecesOf(total, pieceLength, shas), i, b, g)
       <==> 0 <= g < total && i == g / pieceLength && b == (g - i * pieceLength) / BLOCK_SIZE
  {
    PieceHoldsByte(total, pieceLength, |shas|, g, 0);
    if 0 <= i < |shas| {
      PieceHoldsByte(total, pieceLength, |shas|, g, i);
      PieceAtHoldsByte(total, pieceLength, shas, g, i, b);
      var length := PieceLength(total, pieceLength, |shas|, i);
      assert length < TWO_32 && length % TWO_32 == length;
    } else if 0 <= g < total {
      ByteIsInSomePiece(total, pieceLength, |shas|, g);
    }
  }

  /** A length that does not fit is cut, and then some byte is in no block at all. */
  lemma CutPieceLosesByte(total: nat, pieceLength: nat, shas: seq<Sha1>, cut: nat, i: int, b: int)
    requires CountFits(total, pieceLength, |shas|) && cut < |shas|
    requires PieceLength(total, pieceLength, |shas|, cut) >= TWO_32
    ensures var g := cut * pieceLength + PieceLength(total, pieceLength, |shas|, cut) - 1;
            0 <= g < total && !HoldsByte(PiecesOf(total, pieceLength, shas), i, b, g)
  {
    var g := cut * pieceLength + PieceLength(total, pieceLength, |shas|, cut) - 1;
    PieceHoldsByte(total, pieceLength, |shas|, g, cut);
    if 0 <= i < |shas| {
      PieceHoldsByte(total, pieceLength, |shas|, g, i);
      PieceAtHoldsByte(total, pieceLength, shas, g, i, b);
      CutIsShorter(PieceLength(total, pieceLength, |shas|, i));
    }
  }

  lemma CutIsShorter(length: nat)
    ensures length % TWO_32 <= length && (length >= TWO_32 ==> length % TWO_32 < length)
  {
  }

  /** The blocks cover the torrent exactly when no length is cut. */
  lemma CoveredIff(total: nat, pieceLength: nat, shas: seq<Sha1>)
    requires shas != [] && CountFits(total, pieceLength, |shas|)
    ensures (forall g :: 0 <= g < total ==> Covered(total, pieceLength, shas, g))
       <==> LengthsFitU32(total, pieceLength, |shas|)
  {
    PieceHoldsByte(total, pieceLength, |shas|, 0, 0);
    if LengthsFitU32(total, pieceLength, |shas|) {
      forall g | 0 <= g < total ensures Covered(total, pieceLength, shas, g) {
        var i := g / pieceLength;
        PiecesPartitionTorrent(total, pieceLength, shas, g, i, (g - i * pieceLength) / BLOCK_SIZE);
      }
    } else {
      var cut :| 0 <= cut < |shas| && PieceLength(total, pieceLength, |shas|, cut) >= TWO_32;
      var g := cut * pieceLength + PieceLength(total, pieceLength, |shas|, cut) - 1;
      forall i, b ensures !HoldsByte(PiecesOf(total, pieceLength, shas), i, b, g) {
        CutPieceLosesByte(total, pieceLength, shas, cut, i, b);
      }
      CutPieceLosesByte(total, pieceLength, shas, cut, 0, 0);
      assert !Covered(total, pieceLength, shas, g);
    }
  }

  ghost predicate Covered(total: nat, pieceLength: nat, shas: seq<Sha1>, g: int)
    requires CountFits(total, pieceLength, |shas|)
  {
    exists i, b :: HoldsByte(PiecesOf(total, pieceLength, shas), i, b, g)
  }

  /** For one, a torrent of a single piece of 2^32 bytes: the piece is cut to no block, and no byte is covered. */
  lemma FourGibibytePiece(hash: Sha1, g: int)
    ensures CountFits(TWO_32, TWO_32, 1) && !Covered(TWO_32, TWO_32, [hash], g)
  {
    var shas := [hash];
    forall i, b ensures !HoldsByte(PiecesOf(TWO_32, TWO_32, shas), i, b, g) {
      if i == 0 {
        PieceAtHoldsByte(TWO_32, TWO_32, shas, g, 0, b);
        assert PieceLength(TWO_32, TWO_32, 1, 0) % TWO_32 == 0;
      }
    }
  }

  // ---- 64-bit additions and multiplications ----

  /** The assertions as a build without overflow checks computes them. */
  predicate WrappedCountFits(total: nat, pieceLength: nat, n: nat)
    requires n > 0
  {
    var offset := (n - 1) * pieceLength % TWO_64;
    total > offset && pieceLength >= total - offset
  }

  /** Where the assertions hold, no offset overflows. Without overflow checks they are right for every torrent
      exactly when the last offset fits 64 bits, or wraps to where nothing can follow it. */
  lemma WrappedCountFitsIff(pieceLength: nat, n: nat)
    requires n > 0 && pieceLength > 0
    ensures forall total :: 0 <= total < TWO_64 && CountFits(total, pieceLength, n) ==> (n - 1) * pieceLength < TWO_64
    ensures (forall total :: 0 <= total < TWO_64 ==>
               (WrappedCountFits(total, pieceLength, n) <==> CountFits(total, pieceLength, n)))
       <==> (n - 1) * pieceLength < TWO_64 || (n - 1) * pieceLength % TWO_64 == TWO_64 - 1
  {
    var offset := (n - 1) * pieceLength;
    Mul(0, n - 1, pieceLength);
    if offset < TWO_64 {
      assert offset % TWO_64 == offset;
    } else {
      var wrapped := offset % TWO_64;
      if wrapped < TWO_64 - 1 {
        assert WrappedCountFits(wrapped + 1, pieceLength, n) && !CountFits(wrapped + 1, pieceLength, n);
      }
    }
  }

  /** For one, three pieces of 2^63 bytes (a negative piece length in the torrent) pass for a torrent of ten. */
  lemma OverflowPasses()
    ensures WrappedCountFits(10, TWO_64 / 2, 3) && !CountFits(10, TWO_64 / 2, 3)
  {
  }
}
