/** Whole runs of the download loop, from fresh files on. */
module DownloadRuns {
  import opened ByteStrings
  import opened FileLayout
  import opened FlatFiles
  import opened Pieces
  import opened Sha1Hash
  import opened DownloadModel
  import opened DownloadLaws
  import opened AnnouncementLaws

  ghost predicate AllWritable(cfg: Config, calls: seq<Call>) {
    forall k :: 0 <= k < |calls| ==> Writable(cfg, calls[k].piece, calls[k].block, calls[k].data)
  }

  ghost predicate AllStorable(cfg: Config, calls: seq<Call>) {
    forall k :: 0 <= k < |calls| ==> Storable(cfg, calls[k].piece, calls[k].block, calls[k].data)
  }

  /** The state after a sequence of `store` calls. */
  ghost function Run(cfg: Config, s: State, calls: seq<Call>): (r: State)
    requires Layout(cfg, s) && AllWritable(cfg, calls)
    ensures Layout(cfg, r)
    decreases |calls|
  {
    if calls == [] then s
    else
      var c := calls[0];
      StoreEffects(cfg, s, c.piece, c.block, c.data);
      Run(cfg, Store(cfg, s, c.piece, c.block, c.data), calls[1..])
  }

  lemma {:induction false} RunKeepsAnnounced(cfg: Config, s: State, calls: seq<Call>)
    requires Announced(cfg, s) && AllWritable(cfg, calls)
    ensures Announced(cfg, Run(cfg, s, calls))
    decreases |calls|
  {
    if calls != [] {
      var c := calls[0];
      StoreKeepsAnnounced(cfg, s, c.piece, c.block, c.data);
      RunKeepsAnnounced(cfg, Store(cfg, s, c.piece, c.block, c.data), calls[1..]);
    }
  }

  /** In every run, pieces, files and the end are announced when they are complete and once each. */
  lemma EveryRunIsAnnounced(cfg: Config, disk: Bytes, calls: seq<Call>)
    requires WellFormed(cfg) && |disk| == cfg.total && AllWritable(cfg, calls)
    ensures Layout(cfg, Init(cfg, disk)) && Announced(cfg, Run(cfg, Init(cfg, disk), calls))
  {
    InitIsAnnounced(cfg, disk);
    RunKeepsAnnounced(cfg, Init(cfg, disk), calls);
  }

  /** The calls of a run that line 130 as written does not spoil. */
  ghost predicate Harmless(cfg: Config) {
    !cfg.asWritten || forall i :: 0 <= i < |cfg.shas| ==> Len(cfg, i) <= BLOCK_SIZE
  }

  lemma StoreKeepsVerified(cfg: Config, s: State, p: nat, b: nat, data: Bytes)
    requires Verified(cfg, s) && Storable(cfg, p, b, data) && Harmless(cfg)
    ensures Verified(cfg, Store(cfg, s, p, b, data))
  {
    WritePrecondition(cfg, s, p, b, data);
    if cfg.asWritten { NumBlocksIsCeiling(Len(cfg, p)); }
    StoreKeepsVerifiedIff(cfg, s, p, b, data);
  }

  lemma {:induction false} RunKeepsVerified(cfg: Config, s: State, calls: seq<Call>)
    requires Verified(cfg, s) && AllStorable(cfg, calls) && Harmless(cfg)
    ensures Verified(cfg, Run(cfg, s, calls))
    decreases |calls|
  {
    if calls != [] {
      var c := calls[0];
      StoreKeepsVerified(cfg, s, c.piece, c.block, c.data);
      RunKeepsVerified(cfg, Store(cfg, s, c.piece, c.block, c.data), calls[1..]);
    }
  }

  /** In every run a complete piece has all its blocks and the right hash. */
  ghost predicate EveryRunVerified(cfg: Config, disk: Bytes)
    requires WellFormed(cfg) && |disk| == cfg.total
  {
    InitLayout(cfg, disk);
    forall calls :: AllStorable(cfg, calls) ==> Verified(cfg, Run(cfg, Init(cfg, disk), calls))
  }

  lemma FirstBlockFits(cfg: Config, p: nat, block: Bytes)
    requires Buildable(cfg) && p < |cfg.shas| && |block| == BLOCK_SIZE < Len(cfg, p)
    ensures Storable(cfg, p, 0, block) && NumBlocks(Len(cfg, p)) > 1
  {
    PieceBounds(cfg, p);
    NumBlocksIsCeiling(Len(cfg, p));
  }

  /** With line 130 after a successful check only, every run is verified; with the line as written, exactly
      when no piece has a second block. */
  lemma EveryRunVerifiedIff(cfg: Config, disk: Bytes)
    requires WellFormed(cfg) && |disk| == cfg.total
    ensures EveryRunVerified(cfg, disk) <==> Harmless(cfg)
  {
    var s := Init(cfg, disk);
    InitLayout(cfg, disk);
    if Harmless(cfg) {
      forall calls | AllStorable(cfg, calls) ensures Verified(cfg, Run(cfg, s, calls)) {
        RunKeepsVerified(cfg, s, calls);
      }
    } else {
      var p :| 0 <= p < |cfg.shas| && Len(cfg, p) > BLOCK_SIZE;
      var block := seq(BLOCK_SIZE, _ => 0);
      var calls := [Call(p, 0, block)];
      FirstBlockFits(cfg, p, block);
      assert AllStorable(cfg, calls);
      InitPieces(cfg, p);
      StoreKeepsVerifiedIff(cfg, s, p, 0, block);
      assert !s.pieces[p].blocks[1].done;
      assert calls[1..] == [] && Run(cfg, s, calls) == Store(cfg, s, p, 0, block);
    }
  }

  /** Whatever comes later, a complete piece keeps its bytes. */
  lemma {:induction false} CompletedIsFinalInRuns(cfg: Config, s: State, calls: seq<Call>, i: nat)
    requires Layout(cfg, s) && AllStorable(cfg, calls) && i < |s.pieces| && s.pieces[i].done
    ensures Layout(cfg, Run(cfg, s, calls)) && Run(cfg, s, calls).pieces[i] == s.pieces[i]
    ensures Off(cfg, i) + Len(cfg, i) <= cfg.total
    ensures Range(Run(cfg, s, calls).disk, s.pieces[i]) == Range(s.disk, s.pieces[i])
    decreases |calls|
  {
    PieceBounds(cfg, i);
    if calls != [] {
      var c := calls[0];
      StoreEffects(cfg, s, c.piece, c.block, c.data);
      CompletedIsFinal(cfg, s, c.piece, c.block, c.data, i);
      CompletedIsFinalInRuns(cfg, Store(cfg, s, c.piece, c.block, c.data), calls[1..], i);
    }
  }

  /** Once the download is complete, every file that is not empty has its own name. */
  lemma AllFilesFinished(cfg: Config, s: State, f: nat)
    requires Announced(cfg, s) && f < |cfg.names| && NonEmpty(cfg, f)
    ensures IsComplete(s.pieces) ==>
              s.paths[f] == cfg.names[f] && Tally(s.events, Finished(f)) == 1 && Tally(s.events, AllOver) == 1
  {
    assert FileTold(cfg, s, f);
    FileHasPiece(cfg, f);
    if IsComplete(s.pieces) { CompletePiecesCompleteFile(cfg, s.pieces, f); }
  }

  lemma CompletePiecesCompleteFile(cfg: Config, pieces: seq<Piece>, f: nat)
    requires cfg.pieceLength > 0 && f < |cfg.offsets| - 1 && IsComplete(pieces)
    ensures FileComplete(cfg, pieces, f)
  {
  }

  // ---- What is handed out ----

  /** Nothing lies at this place, not even an empty file at the end: an empty request for it makes `read`
      index past the last offset. */
  predicate AtTheEnd(cfg: Config, at: nat)
    requires |cfg.offsets| >= 1
  {
    at == Total(cfg.offsets) && SearchIndex(cfg.offsets, at) == |cfg.offsets| - 1
  }

  /** Which requests make `retrieve_data` panic: those for no piece, and those to a complete piece that end
      past the torrent or begin where nothing lies. */
  lemma RetrievePanicsIff(cfg: Config, s: State, p: nat, offset: nat, length: nat)
    requires Layout(cfg, s)
    ensures RetrieveData(cfg, s, p, offset, length) == Panic
       <==> p >= |s.pieces| || (s.pieces[p].done && (Off(cfg, p) + offset + length > cfg.total
                                                    || AtTheEnd(cfg, Off(cfg, p) + offset)))
  {
    if p < |s.pieces| { SearchIndexFinds(cfg.offsets, Off(cfg, p) + offset); }
  }

  /** A request inside its piece is refused while the piece is not complete, and else answered with that slice
      of bytes that have the hash of the torrent, unless it is empty and at the very end. */
  lemma RetrievedIsVerified(cfg: Config, s: State, p: nat, offset: nat, length: nat)
    requires Verified(cfg, s) && p < |s.pieces| && offset + length <= Len(cfg, p)
    ensures Off(cfg, p) + Len(cfg, p) <= |s.disk|
    ensures var r, empty := RetrieveData(cfg, s, p, offset, length), length == 0 && AtTheEnd(cfg, Off(cfg, p) + offset);
            && (r == Incomplete <==> !s.pieces[p].done)
            && (r == Panic <==> s.pieces[p].done && empty)
            && (r.Data? <==> s.pieces[p].done && !empty)
            && (r.Data? ==> && r.bytes == Range(s.disk, s.pieces[p])[offset..offset + length]
                            && cfg.sha1(Range(s.disk, s.pieces[p])) == cfg.shas[p])
  {
    PieceBounds(cfg, p);
    RetrievePanicsIff(cfg, s, p, offset, length);
    if s.pieces[p].done {
      assert PieceVerified(cfg, s.disk, s.pieces[p]);
      SliceOfRange(s.disk, s.pieces[p], offset, length);
    }
  }

  /** Nothing compares a request with its piece: a longer one goes on with the bytes of the next piece,
      complete or not. */
  lemma OverlongReadsOn(cfg: Config, s: State, p: nat, offset: nat, length: nat)
    requires Layout(cfg, s) && p < |s.pieces| && s.pieces[p].done && Off(cfg, p) + offset + length <= cfg.total
    requires offset <= Len(cfg, p) < offset + length
    ensures p + 1 < |s.pieces| && Off(cfg, p) + Len(cfg, p) == Off(cfg, p + 1) <= Off(cfg, p) + offset + length
    ensures RetrieveData(cfg, s, p, offset, length)
         == Data(Range(s.disk, s.pieces[p])[offset..] + s.disk[Off(cfg, p + 1)..Off(cfg, p) + offset + length])
  {
    NextPiece(cfg, p);
    SearchIndexFinds(cfg.offsets, Off(cfg, p) + offset);
    assert s.disk[Off(cfg, p) + offset..Off(cfg, p) + offset + length]
        == Range(s.disk, s.pieces[p])[offset..] + s.disk[Off(cfg, p + 1)..Off(cfg, p) + offset + length];
  }

  /** The bytes of piece `p` are the same on both disks. */
  ghost predicate OwnBytesSame(cfg: Config, s: State, p: nat, disk: Bytes)
    requires p < |s.pieces|
  {
    && |disk| == |s.disk| && Layout(cfg, s.(disk := disk)) && s.pieces[p].offset + s.pieces[p].length <= |disk|
    && Range(disk, s.pieces[p]) == Range(s.disk, s.pieces[p])
  }

  lemma AnswerIs(cfg: Config, s: State, p: nat, offset: nat, length: nat)
    requires Layout(cfg, s) && p < |s.pieces| && s.pieces[p].done && length > 0
    requires Off(cfg, p) + offset + length <= cfg.total
    ensures RetrieveData(cfg, s, p, offset, length)
         == Data(s.disk[Off(cfg, p) + offset..Off(cfg, p) + offset + length])
  {
    SearchIndexFinds(cfg.offsets, Off(cfg, p) + offset);
  }

  /** An answer consists of bytes of its own piece, the checked ones, exactly when the request stays inside it. */
  lemma RetrievedIsOwnIff(cfg: Config, s: State, p: nat, offset: nat, length: nat)
    requires Layout(cfg, s) && p < |s.pieces| && s.pieces[p].done && Off(cfg, p) + offset + length <= cfg.total
    requires length > 0
    ensures (forall disk :: OwnBytesSame(cfg, s, p, disk) ==>
               RetrieveData(cfg, s.(disk := disk), p, offset, length) == RetrieveData(cfg, s, p, offset, length))
       <==> offset + length <= Len(cfg, p)
  {
    if offset + length <= Len(cfg, p) {
      forall disk | OwnBytesSame(cfg, s, p, disk)
        ensures RetrieveData(cfg, s.(disk := disk), p, offset, length) == RetrieveData(cfg, s, p, offset, length)
      {
        AnswerIs(cfg, s, p, offset, length);
        AnswerIs(cfg, s.(disk := disk), p, offset, length);
        SliceOfRange(disk, s.pieces[p], offset, length);
        SliceOfRange(s.disk, s.pieces[p], offset, length);
      }
    } else {
      OverlongShowsOthers(cfg, s, p, offset, length);
    }
  }

  lemma OverlongShowsOthers(cfg: Config, s: State, p: nat, offset: nat, length: nat)
    requires Layout(cfg, s) && p < |s.pieces| && s.pieces[p].done && Off(cfg, p) + offset + length <= cfg.total
    requires length > 0 && offset + length > Len(cfg, p)
    ensures exists disk :: OwnBytesSame(cfg, s, p, disk)
              && RetrieveData(cfg, s.(disk := disk), p, offset, length) != RetrieveData(cfg, s, p, offset, length)
  {
    PieceBounds(cfg, p);
    var at := Off(cfg, p) + offset + length - 1;
    var other: byte := if s.disk[at] == 0 then 1 else 0;
    var disk := s.disk[at := other];
    assert Layout(cfg, s.(disk := disk)) && OwnBytesSame(cfg, s, p, disk);
    AnswerIs(cfg, s, p, offset, length);
    AnswerIs(cfg, s.(disk := disk), p, offset, length);
    assert RetrieveData(cfg, s.(disk := disk), p, offset, length).bytes[length - 1] == other;
  }

  lemma SliceOfRange(disk: Bytes, piece: Piece, offset: nat, length: nat)
    requires piece.offset + piece.length <= |disk| && offset + length <= piece.length
    ensures disk[piece.offset + offset..piece.offset + offset + length] == Range(disk, piece)[offset..offset + length]
  {
    var l := disk[piece.offset + offset..piece.offset + offset + length];
    var r := Range(disk, piece)[offset..offset + length];
    assert |l| == |r| && forall k :: 0 <= k < |l| ==> l[k] == disk[piece.offset + offset + k] == r[k];
  }

  // ---- What is still missing ----

  ghost predicate Indexed(blocks: seq<Block>, from: nat) {
    forall k :: 0 <= k < |blocks| ==> blocks[k].index == from + k
  }

  lemma {:induction false} MissingIs(blocks: seq<Block>, from: nat, b: nat, length: nat)
    requires Indexed(blocks, from)
    ensures (b, length) in MissingFrom(blocks)
       <==> from <= b < from + |blocks| && blocks[b - from] == Block(b, length, false)
  {
    if blocks != [] {
      var tail := blocks[1..];
      assert forall k :: 0 <= k < |tail| ==> tail[k] == blocks[k + 1];
      MissingIs(tail, from + 1, b, length);
      var first := if blocks[0].done then [] else [(blocks[0].index, blocks[0].length)];
      assert MissingFrom(blocks) == first + MissingFrom(tail);
      assert (b, length) in MissingFrom(blocks) <==> (b, length) in first || (b, length) in MissingFrom(tail);
    }
  }

  lemma {:induction false} MissingInOrder(blocks: seq<Block>, from: nat)
    requires Indexed(blocks, from)
    ensures forall i :: 0 <= i < |MissingFrom(blocks)| ==> from <= MissingFrom(blocks)[i].0
    ensures forall i, j :: 0 <= i < j < |MissingFrom(blocks)| ==> MissingFrom(blocks)[i].0 < MissingFrom(blocks)[j].0
  {
    if blocks != [] {
      var tail := blocks[1..];
      assert forall k :: 0 <= k < |tail| ==> tail[k] == blocks[k + 1];
      MissingInOrder(tail, from + 1);
      var all := MissingFrom(blocks);
      if !blocks[0].done {
        assert forall i :: 0 < i < |all| ==> all[i] == MissingFrom(tail)[i - 1];
      }
    }
  }

  /** The answer lists the blocks that are not there, in order, and all of them exactly when a complete
      piece has all its blocks. */
  lemma IncompleteIsExactIff(cfg: Config, s: State, p: nat)
    requires Layout(cfg, s) && p < |s.pieces|
    ensures (forall b: nat, length: nat :: (b, length) in IncompleteBlocks(s, p)
               <==> b < |s.pieces[p].blocks| && s.pieces[p].blocks[b] == Block(b, length, false))
       <==> (s.pieces[p].done ==> s.pieces[p].HasAllBlocks())
    ensures forall i, j :: 0 <= i < j < |IncompleteBlocks(s, p)| ==>
              IncompleteBlocks(s, p)[i].0 < IncompleteBlocks(s, p)[j].0
  {
    var blocks := s.pieces[p].blocks;
    assert Shaped(cfg, p, s.pieces[p]);
    forall b: nat, length: nat
      ensures (b, length) in MissingFrom(blocks) <==> b < |blocks| && blocks[b] == Block(b, length, false)
    {
      MissingIs(blocks, 0, b, length);
    }
    MissingInOrder(blocks, 0);
    if s.pieces[p].done && !s.pieces[p].HasAllBlocks() {
      var b :| 0 <= b < |blocks| && !blocks[b].done;
      assert blocks[b] == Block(b, blocks[b].length, false);
      assert (b, blocks[b].length) !in IncompleteBlocks(s, p);
    }
  }

  /** Every block listed is one of the piece, of its exact length and not there yet; it lies below 2^32, which
      the connections rely on. */
  lemma ListedBlocksFit(cfg: Config, s: State, p: nat)
    requires Layout(cfg, s) && p < |s.pieces|
    ensures 0 <= Len(cfg, p) < TWO_32
    ensures forall i :: 0 <= i < |IncompleteBlocks(s, p)| ==>
              var (b, length) := IncompleteBlocks(s, p)[i];
              && b * BLOCK_SIZE < b * BLOCK_SIZE + length <= Len(cfg, p)
              && b < |s.pieces[p].blocks| && !s.pieces[p].blocks[b].done
              && b < NumBlocks(Len(cfg, p)) && length == BlockAt(Len(cfg, p), b).length
  {
    PieceBounds(cfg, p);
    forall i | 0 <= i < |IncompleteBlocks(s, p)|
      ensures var (b, length) := IncompleteBlocks(s, p)[i];
              && b * BLOCK_SIZE < b * BLOCK_SIZE + length <= Len(cfg, p)
              && b < |s.pieces[p].blocks| && !s.pieces[p].blocks[b].done
              && b < NumBlocks(Len(cfg, p)) && length == BlockAt(Len(cfg, p), b).length
    {
      var (b, length) := IncompleteBlocks(s, p)[i];
      assert Shaped(cfg, p, s.pieces[p]);
      MissingIs(s.pieces[p].blocks, 0, b, length);
      assert (b, length) in IncompleteBlocks(s, p);
      NumBlocksIsCeiling(Len(cfg, p));
    }
  }

  // ---- A whole download ----

  /** A torrent of one file in one block. */
  function OneBlock(data: Bytes, name: string, sha1: Bytes -> Sha1): Config {
    Config(|data|, |data|, [sha1(data)], [0, |data|], [name], sha1, false)
  }

  /** The right data downloads it in one call, and everything is told in its order. */
  lemma OneBlockDownloads(data: Bytes, name: string, sha1: Bytes -> Sha1, disk: Bytes)
    requires 0 < |data| <= BLOCK_SIZE && |disk| == |data|
    ensures var cfg := OneBlock(data, name, sha1);
            && WellFormed(cfg) && Layout(cfg, Init(cfg, disk)) && Storable(cfg, 0, 0, data)
            && var r := Store(cfg, Init(cfg, disk), 0, 0, data);
               && r.disk == data && IsComplete(r.pieces) && r.paths == [name]
               && r.events == [FileFinish(0, name), BlockCompleted(0, 0), PieceCompleted(0), DownloadCompleted]
  {
    var cfg := OneBlock(data, name, sha1);
    var s := Init(cfg, disk);
    NumBlocksIsCeiling(|data|);
    InitLayout(cfg, disk);
    InitPieces(cfg, 0);
    StoreIsAnnounce(cfg, s, 0, 0, data);
    StoreEffects(cfg, s, 0, 0, data);
    assert Splice(disk, 0, data) == data && data[0..|data|] == data;
    OneFileTold(cfg, BeforeNews(cfg, s, 0, 0, data), name);
  }

  /** Then an empty request at its end, though it lies inside the piece, makes the download loop panic. */
  lemma EmptyRequestAtTheEnd(data: Bytes, name: string, sha1: Bytes -> Sha1, disk: Bytes)
    requires 0 < |data| <= BLOCK_SIZE && |disk| == |data|
    ensures var cfg := OneBlock(data, name, sha1);
            && WellFormed(cfg) && Layout(cfg, Init(cfg, disk)) && Storable(cfg, 0, 0, data)
            && var r := Store(cfg, Init(cfg, disk), 0, 0, data);
               Layout(cfg, r) && RetrieveData(cfg, r, 0, |data|, 0) == Panic
  {
    var cfg := OneBlock(data, name, sha1);
    OneBlockDownloads(data, name, sha1, disk);
    StoreEffects(cfg, Init(cfg, disk), 0, 0, data);
    var r := Store(cfg, Init(cfg, disk), 0, 0, data);
    assert r.pieces[0].done;
    OneFileEndsAt(|data|);
    RetrievePanicsIff(cfg, r, 0, |data|, 0);
  }

  lemma OneFileEndsAt(n: nat)
    requires 0 < n
    ensures SearchIndex([0, n], n) == 1
  {
  }

  lemma OneFileTold(cfg: Config, s: State, name: string)
    requires Layout(cfg, s) && |s.pieces| == 1 && s.pieces[0].done && s.events == []
    requires cfg.offsets == [0, cfg.total] && cfg.pieceLength == cfg.total && s.paths == [name + TEMP]
    ensures Announce(cfg, s, 0, 0).paths == [name]
    ensures Announce(cfg, s, 0, 0).events
         == [FileFinish(0, name), BlockCompleted(0, 0), PieceCompleted(0), DownloadCompleted]
  {
    PieceBounds(cfg, 0);
    StrippedTemp(name);
    assert SearchIndex(cfg.offsets, 0) == 0;
    assert FilesOf(cfg.offsets, 0, s.pieces[0].length) == (0, 1);
    assert CheckFiles(cfg, s, 0, 1) == CheckFile(cfg, s, 0);
  }
}
