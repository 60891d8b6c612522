/** What every run of `store` keeps, and exactly when line 130 as written breaks it. */
module DownloadLaws {
  import opened ByteStrings
  import opened FileLayout
  import opened FlatFiles
  import opened Pieces
  import opened DownloadModel

  // ---- One call ----

  lemma {:induction false} CheckFilesFrame(cfg: Config, s: State, f: nat, n: nat)
    requires cfg.pieceLength > 0 && f + n <= |cfg.offsets| - 1 == |s.paths|
    ensures var r := CheckFiles(cfg, s, f, n);
            r.disk == s.disk && r.pieces == s.pieces && |r.paths| == |s.paths|
    decreases n
  {
    if n > 0 { CheckFilesFrame(cfg, CheckFile(cfg, s, f), f + 1, n - 1); }
  }

  lemma VerifyFileFrame(cfg: Config, s: State, p: nat)
    requires Layout(cfg, s) && p < |s.pieces|
    ensures var r := VerifyFile(cfg, s, p);
            r.disk == s.disk && r.pieces == s.pieces && |r.paths| == |s.paths|
  {
    PieceBounds(cfg, p);
    var (index, n) := FilesOf(cfg.offsets, s.pieces[p].offset, s.pieces[p].length);
    CheckFilesFrame(cfg, s, index, n);
  }

  /** The block is already there, or its piece is. */
  predicate Held(s: State, p: nat, b: nat)
    requires p < |s.pieces| && b < |s.pieces[p].blocks|
  {
    s.pieces[p].blocks[b].done || s.pieces[p].done
  }

  /** Every other block of the piece is there. */
  predicate LastBlock(s: State, p: nat, b: nat)
    requires p < |s.pieces|
  {
    forall k :: 0 <= k < |s.pieces[p].blocks| && k != b ==> s.pieces[p].blocks[k].done
  }

  /** What a call leaves on disk. */
  function DiskAfter(cfg: Config, s: State, p: nat, b: nat, data: Bytes): Bytes
    requires Layout(cfg, s) && Writable(cfg, p, b, data)
  {
    WritePrecondition(cfg, s, p, b, data);
    if Held(s, p, b) then s.disk else Splice(s.disk, s.pieces[p].offset + BLOCK_SIZE * b, data)
  }

  /** What a call makes of its piece: nothing if the block is held; else the block is marked, and once all
      blocks are there the hash decides between complete and starting over. */
  function PieceAfter(cfg: Config, s: State, p: nat, b: nat, data: Bytes): Piece
    requires Layout(cfg, s) && Writable(cfg, p, b, data)
  {
    WritePrecondition(cfg, s, p, b, data);
    var marked := MarkBlock(s.pieces[p], b);
    if Held(s, p, b) then s.pieces[p]
    else if !LastBlock(s, p, b) then marked.(done := cfg.asWritten)
    else if HashMatches(cfg, DiskAfter(cfg, s, p, b, data), s.pieces[p]) then marked.(done := true)
    else ResetBlocks(marked)
  }

  lemma MarkedHasAll(s: State, p: nat, b: nat)
    requires p < |s.pieces| && b < |s.pieces[p].blocks|
    ensures MarkBlock(s.pieces[p], b).HasAllBlocks() <==> LastBlock(s, p, b)
  {
    var before, after := s.pieces[p].blocks, MarkBlock(s.pieces[p], b).blocks;
    assert forall k :: 0 <= k < |before| ==> (after[k].done <==> k == b || before[k].done);
  }

  lemma PieceAfterIsShaped(cfg: Config, s: State, p: nat, b: nat, data: Bytes)
    requires Layout(cfg, s) && Writable(cfg, p, b, data)
    ensures p < |s.pieces| && Shaped(cfg, p, PieceAfter(cfg, s, p, b, data))
  {
    WritePrecondition(cfg, s, p, b, data);
    assert Shaped(cfg, p, s.pieces[p]);
  }

  /** The call stores a block and has something to announce. */
  predicate News(cfg: Config, s: State, p: nat, b: nat, data: Bytes)
    requires Layout(cfg, s) && Writable(cfg, p, b, data)
  {
    WritePrecondition(cfg, s, p, b, data);
    !Held(s, p, b) && (LastBlock(s, p, b) ==> HashMatches(cfg, DiskAfter(cfg, s, p, b, data), s.pieces[p]))
  }

  /** The call stores the last block of its piece, and the hash does not match. */
  predicate FailedCheck(cfg: Config, s: State, p: nat, b: nat, data: Bytes)
    requires Layout(cfg, s) && Writable(cfg, p, b, data)
  {
    WritePrecondition(cfg, s, p, b, data);
    !Held(s, p, b) && LastBlock(s, p, b) && !HashMatches(cfg, DiskAfter(cfg, s, p, b, data), s.pieces[p])
  }

  function BeforeNews(cfg: Config, s: State, p: nat, b: nat, data: Bytes): State
    requires Layout(cfg, s) && Writable(cfg, p, b, data)
  {
    WritePrecondition(cfg, s, p, b, data);
    s.(disk := DiskAfter(cfg, s, p, b, data), pieces := s.pieces[p := PieceAfter(cfg, s, p, b, data)])
  }

  lemma StoreIsAnnounce(cfg: Config, s: State, p: nat, b: nat, data: Bytes)
    requires Layout(cfg, s) && Writable(cfg, p, b, data)
    ensures Layout(cfg, BeforeNews(cfg, s, p, b, data))
    ensures Store(cfg, s, p, b, data)
         == if News(cfg, s, p, b, data) then Announce(cfg, BeforeNews(cfg, s, p, b, data), p, b)
            else BeforeNews(cfg, s, p, b, data)
  {
    WritePrecondition(cfg, s, p, b, data);
    PieceAfterIsShaped(cfg, s, p, b, data);
    MarkedHasAll(s, p, b);
    if Held(s, p, b) {
      assert s.pieces[p := s.pieces[p]] == s.pieces;
    } else {
      assert s.pieces[p := MarkBlock(s.pieces[p], b)][p := PieceAfter(cfg, s, p, b, data)]
          == s.pieces[p := PieceAfter(cfg, s, p, b, data)];
    }
  }

  lemma StoreEffects(cfg: Config, s: State, p: nat, b: nat, data: Bytes)
    requires Layout(cfg, s) && Writable(cfg, p, b, data)
    ensures var r := Store(cfg, s, p, b, data);
            && Layout(cfg, r)
            && r.disk == DiskAfter(cfg, s, p, b, data)
            && r.pieces == s.pieces[p := PieceAfter(cfg, s, p, b, data)]
  {
    StoreIsAnnounce(cfg, s, p, b, data);
    if News(cfg, s, p, b, data) { VerifyFileFrame(cfg, BeforeNews(cfg, s, p, b, data), p); }
  }

  /** A call changes no byte outside its block, and no byte of another piece. */
  lemma OtherBytesKept(cfg: Config, s: State, p: nat, b: nat, data: Bytes, from: nat, to: nat)
    requires Layout(cfg, s) && Writable(cfg, p, b, data) && from <= to <= cfg.total
    requires to <= Off(cfg, p) + BLOCK_SIZE * b || Off(cfg, p) + BLOCK_SIZE * b + |data| <= from
    ensures |DiskAfter(cfg, s, p, b, data)| == cfg.total
    ensures DiskAfter(cfg, s, p, b, data)[from..to] == s.disk[from..to]
  {
    WritePrecondition(cfg, s, p, b, data);
    SpliceReads(s.disk, s.pieces[p].offset + BLOCK_SIZE * b, data, from, to - from);
  }

  lemma ApartKept(cfg: Config, s: State, p: nat, b: nat, data: Bytes, i: nat)
    requires Layout(cfg, s) && p < |s.pieces| && b < |s.pieces[p].blocks| && i < |s.pieces| && i != p
    requires BLOCK_SIZE * b + |data| <= Len(cfg, p)
    ensures Off(cfg, i) + Len(cfg, i) <= cfg.total && Off(cfg, p) + Len(cfg, p) <= cfg.total
    ensures Range(WriteBlock(s, p, b, data).disk, s.pieces[i]) == Range(s.disk, s.pieces[i])
  {
    PieceBounds(cfg, i);
    PieceBounds(cfg, p);
    if i < p { PiecesDisjoint(cfg, i, p); } else { PiecesDisjoint(cfg, p, i); }
    SpliceReads(s.disk, Off(cfg, p) + BLOCK_SIZE * b, data, Off(cfg, i), Len(cfg, i));
  }

  lemma OtherPieceKept(cfg: Config, s: State, p: nat, b: nat, data: Bytes, i: nat)
    requires Layout(cfg, s) && Storable(cfg, p, b, data) && i < |s.pieces| && i != p
    ensures |DiskAfter(cfg, s, p, b, data)| == cfg.total && Off(cfg, i) + Len(cfg, i) <= cfg.total
    ensures Range(DiskAfter(cfg, s, p, b, data), s.pieces[i]) == Range(s.disk, s.pieces[i])
  {
    WritePrecondition(cfg, s, p, b, data);
    ApartKept(cfg, s, p, b, data, i);
  }

  /** The bytes of every other piece are the same on both disks. */
  ghost predicate OthersKept(cfg: Config, s: State, p: nat, disk: Bytes)
    requires Layout(cfg, s)
  {
    forall i :: 0 <= i < |s.pieces| && i != p ==>
      && |disk| == |s.disk| && Off(cfg, i) + Len(cfg, i) <= |disk|
      && Range(disk, s.pieces[i]) == Range(s.disk, s.pieces[i])
  }

  /** Nothing in `store` compares the data with its block. Whatever `n` bytes are written, the other pieces
      keep theirs exactly when the data ends inside its piece. */
  lemma OthersKeptIff(cfg: Config, s: State, p: nat, b: nat, n: nat)
    requires Layout(cfg, s) && p < |s.pieces| && b < |s.pieces[p].blocks|
    requires Off(cfg, p) + BLOCK_SIZE * b + n <= cfg.total
    ensures (forall data: Bytes :: |data| == n ==> OthersKept(cfg, s, p, WriteBlock(s, p, b, data).disk))
       <==> BLOCK_SIZE * b + n <= Len(cfg, p)
  {
    if BLOCK_SIZE * b + n <= Len(cfg, p) {
      forall data: Bytes | |data| == n ensures OthersKept(cfg, s, p, WriteBlock(s, p, b, data).disk) {
        forall i | 0 <= i < |s.pieces| && i != p
          ensures Off(cfg, i) + Len(cfg, i) <= cfg.total
          ensures Range(WriteBlock(s, p, b, data).disk, s.pieces[i]) == Range(s.disk, s.pieces[i])
        {
          ApartKept(cfg, s, p, b, data, i);
        }
      }
    } else {
      OverrunSpoils(cfg, s, p, b, n);
    }
  }

  /** Data that runs into the next piece can change its first byte. */
  lemma OverrunSpoils(cfg: Config, s: State, p: nat, b: nat, n: nat)
    requires Layout(cfg, s) && p < |s.pieces| && b < |s.pieces[p].blocks|
    requires Off(cfg, p) + BLOCK_SIZE * b + n <= cfg.total && BLOCK_SIZE * b + n > Len(cfg, p)
    ensures exists data: Bytes :: |data| == n && !OthersKept(cfg, s, p, WriteBlock(s, p, b, data).disk)
  {
    NextPiece(cfg, p);
    PieceBounds(cfg, p + 1);
    NumBlocksIsCeiling(Len(cfg, p));
    var from, at := Off(cfg, p) + BLOCK_SIZE * b, Off(cfg, p + 1);
    var other: byte := if s.disk[at] == 0 then 1 else 0;
    var data := seq(n, _ => other);
    WrittenByte(s.disk, from, data, at);
    var disk := WriteBlock(s, p, b, data).disk;
    FirstByte(disk, s.pieces[p + 1]);
    FirstByte(s.disk, s.pieces[p + 1]);
    assert !OthersKept(cfg, s, p, disk);
  }

  lemma NextPiece(cfg: Config, p: nat)
    requires WellFormed(cfg) && p < |cfg.shas| && Off(cfg, p) + Len(cfg, p) < cfg.total
    ensures p + 1 < |cfg.shas| && Off(cfg, p + 1) == Off(cfg, p) + Len(cfg, p)
  {
  }

  lemma WrittenByte(disk: Bytes, from: nat, data: Bytes, at: nat)
    requires from + |data| <= |disk| && from <= at < from + |data|
    ensures Splice(disk, from, data)[at] == data[at - from]
  {
  }

  lemma FirstByte(disk: Bytes, p: Piece)
    requires 0 < p.length && p.offset + p.length <= |disk|
    ensures Range(disk, p)[0] == disk[p.offset]
  {
  }

  // ---- The invariant ----

  /** A complete piece has all its blocks, and its bytes hash to what the torrent says. */
  ghost predicate Verified(cfg: Config, s: State) {
    && Layout(cfg, s)
    && forall i :: 0 <= i < |s.pieces| && s.pieces[i].done ==> PieceVerified(cfg, s.disk, s.pieces[i])
  }

  ghost predicate PieceVerified(cfg: Config, disk: Bytes, piece: Piece) {
    && piece.HasAllBlocks()
    && piece.offset + piece.length <= |disk| && HashMatches(cfg, disk, piece)
  }

  /** Line 130 as written breaks the invariant exactly when the block is new and not the last one of its
      piece; with the line only after a successful check, no call breaks it. */
  lemma StoreKeepsVerifiedIff(cfg: Config, s: State, p: nat, b: nat, data: Bytes)
    requires Verified(cfg, s) && Storable(cfg, p, b, data)
    ensures p < |s.pieces| && b < |s.pieces[p].blocks|
    ensures Verified(cfg, Store(cfg, s, p, b, data))
       <==> !cfg.asWritten || Held(s, p, b) || LastBlock(s, p, b)
  {
    WritePrecondition(cfg, s, p, b, data);
    StoreEffects(cfg, s, p, b, data);
    var r := Store(cfg, s, p, b, data);
    forall i | 0 <= i < |s.pieces| && i != p && s.pieces[i].done
      ensures PieceVerified(cfg, r.disk, r.pieces[i])
    {
      OtherPieceKept(cfg, s, p, b, data, i);
      assert PieceVerified(cfg, s.disk, s.pieces[i]);
    }
    if cfg.asWritten && !Held(s, p, b) && !LastBlock(s, p, b) {
      var k :| 0 <= k < |s.pieces[p].blocks| && k != b && !s.pieces[p].blocks[k].done;
      assert !r.pieces[p].blocks[k].done && r.pieces[p].done;
      assert !PieceVerified(cfg, r.disk, r.pieces[p]);
    } else if r.pieces[p].done {
      PieceNowVerified(cfg, s, p, b, data);
    }
  }

  lemma PieceNowVerified(cfg: Config, s: State, p: nat, b: nat, data: Bytes)
    requires Verified(cfg, s) && Storable(cfg, p, b, data)
    requires p < |s.pieces| && PieceAfter(cfg, s, p, b, data).done
    requires b < |s.pieces[p].blocks| && (!cfg.asWritten || Held(s, p, b) || LastBlock(s, p, b))
    ensures PieceVerified(cfg, DiskAfter(cfg, s, p, b, data), PieceAfter(cfg, s, p, b, data))
  {
    WritePrecondition(cfg, s, p, b, data);
    if s.pieces[p].done { assert PieceVerified(cfg, s.disk, s.pieces[p]); }
  }

  lemma HeldChangesNothing(cfg: Config, s: State, p: nat, b: nat, data: Bytes)
    requires Layout(cfg, s) && Writable(cfg, p, b, data)
    ensures p < |s.pieces| && b < |s.pieces[p].blocks|
    ensures Held(s, p, b) ==> Store(cfg, s, p, b, data) == s
  {
    WritePrecondition(cfg, s, p, b, data);
  }

  /** A complete piece stays complete and its bytes never change again, in either reading of line 130. */
  lemma CompletedIsFinal(cfg: Config, s: State, p: nat, b: nat, data: Bytes, i: nat)
    requires Layout(cfg, s) && Storable(cfg, p, b, data) && i < |s.pieces| && s.pieces[i].done
    ensures Off(cfg, i) + Len(cfg, i) <= |s.disk| == |Store(cfg, s, p, b, data).disk|
    ensures i < |Store(cfg, s, p, b, data).pieces|
    ensures Store(cfg, s, p, b, data).pieces[i] == s.pieces[i]
    ensures Range(Store(cfg, s, p, b, data).disk, s.pieces[i]) == Range(s.disk, s.pieces[i])
  {
    PieceBounds(cfg, i);
    WritePrecondition(cfg, s, p, b, data);
    if Held(s, p, b) {
      HeldChangesNothing(cfg, s, p, b, data);
    } else {
      StoreEffects(cfg, s, p, b, data);
      OtherPieceKept(cfg, s, p, b, data, i);
    }
  }

  /** A failed check takes back every block of its piece, and touches nothing but the bytes written. */
  lemma FailedCheckStartsOver(cfg: Config, s: State, p: nat, b: nat, data: Bytes)
    requires Layout(cfg, s) && Writable(cfg, p, b, data)
    ensures |Store(cfg, s, p, b, data).pieces| == |s.pieces| == |cfg.shas|
    ensures FailedCheck(cfg, s, p, b, data) ==>
            var r := Store(cfg, s, p, b, data);
            && !r.pieces[p].done
            && IncompleteBlocks(r, p) == MissingFrom(NewPiece(Len(cfg, p), Off(cfg, p), cfg.shas[p]).blocks)
            && (forall k :: 0 <= k < |r.pieces[p].blocks| ==> !r.pieces[p].blocks[k].done)
            && (forall i :: 0 <= i < |s.pieces| && i != p ==> r.pieces[i] == s.pieces[i])
            && r.events == s.events && r.paths == s.paths
  {
    WritePrecondition(cfg, s, p, b, data);
    StoreEffects(cfg, s, p, b, data);
    PieceBounds(cfg, p);
    var r := Store(cfg, s, p, b, data);
    if FailedCheck(cfg, s, p, b, data) {
      assert r.pieces[p].blocks == NewPiece(Len(cfg, p), Off(cfg, p), cfg.shas[p]).blocks;
    }
  }

  // ---- The start ----

  lemma InitPieces(cfg: Config, i: nat)
    requires Buildable(cfg) && i < |cfg.shas|
    ensures Shaped(cfg, i, PiecesOf(cfg.total, cfg.pieceLength, cfg.shas)[i])
    ensures !PiecesOf(cfg.total, cfg.pieceLength, cfg.shas)[i].done
  {
    PieceBounds(cfg, i);
    assert Len(cfg, i) % TWO_32 == Len(cfg, i);
  }

  lemma InitLayout(cfg: Config, disk: Bytes)
    requires WellFormed(cfg) && |disk| == cfg.total
    ensures Layout(cfg, Init(cfg, disk)) && Verified(cfg, Init(cfg, disk))
    ensures forall i :: 0 <= i < |cfg.shas| ==> !Init(cfg, disk).pieces[i].done
    ensures forall f :: 0 <= f < |cfg.names| ==> Init(cfg, disk).paths[f] == cfg.names[f] + ".temp"
  {
    forall i | 0 <= i < |cfg.shas|
      ensures Shaped(cfg, i, Init(cfg, disk).pieces[i]) && !Init(cfg, disk).pieces[i].done
    {
      InitPieces(cfg, i);
    }
  }
}
